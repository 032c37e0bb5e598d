/** Moves with global remote ids: which ones a synchronisation issues, where they lead, and what
    becomes of them on the server (akonadi/collectionsync.cpp, updateLocalCollection). */
module SyncMoves {
  import opened Collections
  import opened Trees
  import opened SyncState
  import opened SyncListing
  import opened SyncMatching
  import opened SyncGrowth
  import opened SyncLedger
  import opened SyncRun
  import opened SyncSystem
  import opened SyncSteps

  // ------------------------------------------------------------------ which moves a pass issues

  /** Where a local collection hangs in the local tree. */
  function LocalParent(t: Tree, x: Id): Id {
    Node(t, x).collection.Parent().Uid()
  }

  /** A matched collection whose parent is matched, but by another node than the one it hangs on. */
  ghost predicate NeedsMove(t: Tree, c: Collection) {
    && Match(t, c).Some? && MatchParent(t, c).Some?
    && MatchParent(t, c).value != LocalParent(t, Match(t, c).value)
  }

  /** The move it needs: to the node that matches its parent. */
  ghost function MoveOf(t: Tree, c: Collection): Move
    requires NeedsMove(t, c)
  {
    var local := Node(t, Match(t, c).value).collection;
    Move(Collection(Match(t, c).value, c.Rid(), c.Name(),
                    if local.Display().Some? then local.Display() else c.Display(), c.Parent()),
         Node(t, MatchParent(t, c).value).collection)
  }

  ghost predicate MoveFor(t: Tree, c: Collection, m: Move) {
    NeedsMove(t, c) && m == MoveOf(t, c)
  }

  /** Some collection of the list needs the move. */
  ghost predicate Wants(t: Tree, cs: seq<Collection>, m: Move) {
    exists c :: c in cs && MoveFor(t, c, m)
  }

  ghost function One(b: bool): nat {
    if b then 1 else 0
  }

  lemma ParentIsNode(t: Tree, x: Id)
    requires TreeOk(t) && x in t.localUidMap && x != ROOT_ID
    ensures LocalParent(t, x) in t.localUidMap
  {
    assert ChildOf(t.localUidMap, x, LocalParent(t, x));
  }

  ghost function MovesOf(t: Tree, c: Collection): multiset<Move> {
    if NeedsMove(t, c) then multiset{MoveOf(t, c)} else multiset{}
  }

  ghost function AllMoves(t: Tree, cs: seq<Collection>): multiset<Move> {
    if cs == [] then multiset{} else AllMoves(t, cs[..|cs| - 1]) + MovesOf(t, cs[|cs| - 1])
  }

  /** Each collection that needs a move wants it once. */
  lemma {:induction false} AllMovesCount(t: Tree, cs: seq<Collection>, m: Move)
    requires GoodListing(false, Elements(cs)) && NoDup(cs)
    ensures AllMoves(t, cs)[m] == One(Wants(t, cs, m))
  {
    if cs != [] {
      var front, c := cs[..|cs| - 1], cs[|cs| - 1];
      assert cs == front + [c];
      assert forall d :: d in cs <==> d in front || d == c;
      assert c in Elements(cs);
      forall d | d in front ensures d in Elements(cs) && d.Rid() != c.Rid() {
        assert d in Elements(cs) && d != c;
      }
      AllMovesCount(t, front, m);
      assert MoveFor(t, c, m) ==> m.col.Rid() == c.Rid();
      assert Wants(t, front, m) ==> m.col.Rid() != c.Rid();
      assert Wants(t, cs, m) <==> Wants(t, front, m) || MoveFor(t, c, m);
    }
  }

  /** An update moves exactly if that is needed. */
  lemma UpdateMoves(s: State, c: Collection, x: Id)
    requires TreeOk(s.tree) && !s.tree.hierarchicalRIDs && Match(s.tree, c) == Some(x) && c.Rid() != ""
    ensures UpdateLocalCollection(s, x, c).moves == s.moves + MovesOf(s.tree, c)
  {
    assert x in s.tree.localUidMap && x != ROOT_ID;
    ParentIsNode(s.tree, x);
    var local := Node(s.tree, x).collection;
    MoveIs(IssueModify(s, local, c), local, c, x);
    assert UpdateLocalCollection(s, x, c).moves == MoveIfNeeded(IssueModify(s, local, c), local, c).moves;
  }

  lemma MoveIs(s: State, local: Collection, c: Collection, x: Id)
    requires Match(s.tree, c) == Some(x) && local == Node(s.tree, x).collection && local.Uid() == x
    requires LocalParent(s.tree, x) in s.tree.localUidMap
    ensures MoveIfNeeded(s, local, c).moves == s.moves + MovesOf(s.tree, c)
  {
  }

  ghost function MarkOf(t: Tree, c: Collection): set<Id> {
    if Match(t, c).Some? then {Match(t, c).value} else {}
  }

  lemma OneMoves(w: Sweep, c: Collection)
    requires TreeOk(w.state.tree) && !w.state.tree.hierarchicalRIDs && c.Rid() != "" && !w.aborted
    ensures var w' := ProcessOne(w, c);
      && !w'.aborted && w'.state.tree == w.state.tree
      && w'.state.moves == w.state.moves + MovesOf(w.state.tree, c)
      && w'.state.processed == w.state.processed + MarkOf(w.state.tree, c)
  {
    var t := w.state.tree;
    if Match(t, c).Some? {
      UpdateMoves(w.state, c, Match(t, c).value);
      UpdateIs(w.state, Match(t, c).value, c);
      assert ProcessOne(w, c) == ProcessMatched(w, Match(t, c).value, c);
    } else if MatchParent(t, c).Some? {
      assert ProcessOne(w, c) == ProcessCreatable(w, MatchParent(t, c).value, c);
    } else {
      assert ProcessOne(w, c) == ProcessPremature(w, Some(ROOT_ID), c);
    }
  }

  /** What a list of collections matches. */
  ghost function AllMarks(t: Tree, cs: seq<Collection>): set<Id> {
    set c | c in cs && Match(t, c).Some? :: Match(t, c).value
  }

  lemma MarksMore(t: Tree, cs: seq<Collection>)
    requires cs != []
    ensures AllMarks(t, cs) == AllMarks(t, cs[..|cs| - 1]) + MarkOf(t, cs[|cs| - 1])
  {
    assert cs == cs[..|cs| - 1] + [cs[|cs| - 1]];
  }

  lemma {:induction false} SweepMoves(s: State, cs: seq<Collection>)
    requires TreeOk(s.tree) && !s.tree.hierarchicalRIDs && forall c :: c in cs ==> c.Rid() != ""
    ensures var w := SweepAll(s, cs);
      && !w.aborted && w.state.tree == s.tree && w.state.moves == s.moves + AllMoves(s.tree, cs)
      && w.state.processed == s.processed + AllMarks(s.tree, cs)
  {
    if cs != [] {
      var front, c := cs[..|cs| - 1], cs[|cs| - 1];
      assert cs == front + [c];
      assert forall d :: d in cs <==> d in front || d == c;
      SweepMoves(s, front);
      OneMoves(SweepAll(s, front), c);
      MarksMore(s.tree, cs);
    }
  }

  // ------------------------------------------------------------------ executing

  /** A collection that is updated when s is executed: it is listed and matched, and its match was
      not processed before. */
  ghost predicate TakenUp(s: State, A: set<Collection>, c: Collection) {
    c in A && Match(s.tree, c).Some? && Match(s.tree, c).value !in s.processed
  }

  ghost predicate WantsNow(s: State, A: set<Collection>, m: Move) {
    exists c :: TakenUp(s, A, c) && MoveFor(s.tree, c, m)
  }

  /** Updated are exactly those that waited at the root and have a match. */
  lemma WaitingTakenUp(s: State, A: set<Collection>, c: Collection)
    requires Opened(s, A, ROOT_ID)
    ensures TakenUp(s, A, c) <==> c in Waiting(s, ROOT_ID) && Match(s.tree, c).Some?
  {
    var B := A - Elements(Waiting(s, ROOT_ID));
    var s0 := SetWaiting(s, ROOT_ID, []);
    if c in B {
      assert Settled(s0, s.jobs, c);
    }
    if c in Waiting(s, ROOT_ID) && Match(s.tree, c).Some? {
      var x := Match(s.tree, c).value;
      MatchIsNode(s.tree, A, c);
      if x in s.processed {
        assert MatchedBy(s.tree, B, x);
        var d :| d in B && Match(s.tree, d) == Some(x);
        MatchInjective(s.tree, A, c, d);
        assert false;
      }
    }
  }

  lemma ExecuteSweeps(s: State, A: set<Collection>)
    requires Opened(s, A, ROOT_ID) && !s.tree.hierarchicalRIDs
    ensures var cs := Waiting(s, ROOT_ID); var s' := Execute(s);
      && s'.tree == s.tree && s'.moves == s.moves + AllMoves(s.tree, cs)
      && s'.processed == s.processed + AllMarks(s.tree, cs)
  {
    var cs := Waiting(s, ROOT_ID);
    var s0 := SetWaiting(s, ROOT_ID, []);
    ExecutedIs(s, A);
    SweepMoves(s0, cs);
    var s1 := ProcessPendingRemoteNodes(s, ROOT_ID);
    var w := SweepAll(s0, cs);
    assert s1.moves == w.state.moves && s1.processed == w.state.processed;
  }

  lemma WaitingWant(s: State, A: set<Collection>, m: Move)
    requires Opened(s, A, ROOT_ID) && !s.tree.hierarchicalRIDs
    ensures AllMoves(s.tree, Waiting(s, ROOT_ID))[m] == One(WantsNow(s, A, m))
  {
    var cs := Waiting(s, ROOT_ID);
    forall c | c in Elements(cs) ensures c in A {
    }
    AllMovesCount(s.tree, cs, m);
    forall c ensures TakenUp(s, A, c) <==> c in cs && Match(s.tree, c).Some? {
      WaitingTakenUp(s, A, c);
    }
  }

  /** Executing issues exactly the moves that the collections taken up need, each once. */
  lemma ExecuteMoves(s: State, A: set<Collection>, m: Move)
    requires Opened(s, A, ROOT_ID) && !s.tree.hierarchicalRIDs
    ensures Execute(s).moves[m] == s.moves[m] + One(WantsNow(s, A, m))
  {
    ExecuteSweeps(s, A);
    WaitingWant(s, A, m);
  }

  ghost predicate MarkedNow(s: State, A: set<Collection>, x: Id) {
    exists c :: TakenUp(s, A, c) && Match(s.tree, c) == Some(x)
  }

  /** And it marks exactly what they match. */
  lemma ExecuteMarks(s: State, A: set<Collection>)
    requires Opened(s, A, ROOT_ID) && !s.tree.hierarchicalRIDs
    ensures Execute(s).tree == s.tree && s.processed <= Execute(s).processed
    ensures forall x :: x in Execute(s).processed <==> x in s.processed || MarkedNow(s, A, x)
  {
    var cs := Waiting(s, ROOT_ID);
    ExecuteSweeps(s, A);
    forall c ensures TakenUp(s, A, c) <==> c in cs && Match(s.tree, c).Some? {
      WaitingTakenUp(s, A, c);
    }
    forall x ensures MarkedNow(s, A, x) <==> x in AllMarks(s.tree, cs) {
    }
  }

  // ------------------------------------------------------------------ client and server

  /** A modify job carries the listed data under the local uid and parent; a local display
      attribute wins. */
  ghost predicate CarriesUpdate(t: Tree, A: set<Collection>, j: Job) {
    j.Modify? ==> exists c :: c in A && Match(t, c).Some? && j.col == UpdateOf(t, c)
  }

  ghost function UpdateOf(t: Tree, c: Collection): Collection
    requires Match(t, c).Some?
  {
    var local := Node(t, Match(t, c).value).collection;
    Collection(Match(t, c).value, c.Rid(), c.Name(),
               if local.Display().Some? then local.Display() else c.Display(), local.Parent())
  }

  /** With global remote ids: where the server keeps what the local tree holds, and which moves are
      under way. */
  ghost predicate Agrees(s: State, server: Server, A: set<Collection>) {
    && (forall x {:trigger x in server} :: x in server ==>
          x in s.tree.localUidMap && x != ROOT_ID && server[x].remoteId == Node(s.tree, x).collection.Rid())
    && (forall x {:trigger x in s.processed} :: x in server && x !in s.processed ==>
          server[x].parent == LocalParent(s.tree, x))
    && (forall x {:trigger MovedTo(s.tree, A, x, server[x].parent)} :: x in server ==>
          server[x].parent == LocalParent(s.tree, x) || MovedTo(s.tree, A, x, server[x].parent))
    && (forall m {:trigger MoveRight(s, A, m)} :: m in s.moves ==> MoveRight(s, A, m))
    && (forall j {:trigger CarriesUpdate(s.tree, A, j)} :: j in s.jobs ==> CarriesUpdate(s.tree, A, j))
  }

  /** Some listed collection matches x and needs it to be below p. */
  ghost predicate MovedTo(t: Tree, A: set<Collection>, x: Id, p: Id) {
    exists c :: c in A && NeedsMove(t, c) && Match(t, c) == Some(x) && MatchParent(t, c) == Some(p)
  }

  /** A move under way leads a processed collection to the node that matches its parent. */
  ghost predicate MoveRight(s: State, A: set<Collection>, m: Move) {
    m.col.Uid() in s.processed && exists c :: c in A && MoveFor(s.tree, c, m)
  }

  lemma MoveLeads(s: State, A: set<Collection>, m: Move)
    requires Syncing(s, A) && !s.tree.hierarchicalRIDs && MoveRight(s, A, m)
    ensures MovedTo(s.tree, A, m.col.Uid(), m.dest.Uid()) && m.dest.Uid() in s.tree.localUidMap
  {
    var c :| c in A && MoveFor(s.tree, c, m);
    MatchIsNode(s.tree, A, c);
  }

  ghost predicate AgreesInv(s: System, remote: set<Collection>) {
    && Inv(s, remote)
    && (s.client.tree.hierarchicalRIDs && s.client.localListDone ==> s.client.moves == multiset{})
    && (!s.client.tree.hierarchicalRIDs && s.client.localListDone ==> Agrees(s.client, s.server, Seen(s, remote)))
  }

  lemma ListedAgrees(c: State, server: Server, A: set<Collection>)
    requires ListedTree(c.tree, server) && Rooted(ServerParents(server))
    requires c.jobs == multiset{} && c.moves == multiset{}
    ensures Agrees(c, server, A)
  {
    forall x | x in server ensures x != ROOT_ID && Node(c.tree, x).collection == Listed(server, x) {
      assert x in ServerParents(server);
    }
  }

  lemma MoreSeen(t: Tree, A: set<Collection>, A': set<Collection>)
    requires A <= A'
    ensures forall x, p {:trigger MovedTo(t, A', x, p)} :: MovedTo(t, A, x, p) ==> MovedTo(t, A', x, p)
    ensures forall j {:trigger CarriesUpdate(t, A', j)} :: CarriesUpdate(t, A, j) ==> CarriesUpdate(t, A', j)
  {
  }

  // ------------------------------------------------------------------ deliveries

  /** What a pass adds to the jobs carries the right data. */
  lemma OneCarries(w: Sweep, A: set<Collection>, c: Collection)
    requires TreeOk(w.state.tree) && !w.state.tree.hierarchicalRIDs && c.Rid() != "" && !w.aborted && c in A
    requires forall j :: j in w.state.jobs + w.creations ==> CarriesUpdate(w.state.tree, A, j)
    ensures var w' := ProcessOne(w, c);
      forall j :: j in w'.state.jobs + w'.creations ==> CarriesUpdate(w.state.tree, A, j)
  {
    var t := w.state.tree;
    var w' := ProcessOne(w, c);
    if Match(t, c).Some? {
      var x := Match(t, c).value;
      var k := ModifyJob(Node(t, x).collection, c);
      UpdateIs(w.state, x, c);
      assert x in t.localUidMap && k.col == UpdateOf(t, c);
      assert w'.state.jobs == w.state.jobs + multiset{k};
    } else if MatchParent(t, c).Some? {
      assert w' == ProcessCreatable(w, MatchParent(t, c).value, c);
    } else {
      assert w' == ProcessPremature(w, Some(ROOT_ID), c);
    }
  }

  lemma {:induction false} SweepCarries(s: State, A: set<Collection>, cs: seq<Collection>)
    requires TreeOk(s.tree) && !s.tree.hierarchicalRIDs && GoodListing(false, Elements(cs)) && NoDup(cs)
    requires forall c :: c in cs ==> c in A
    requires forall j :: j in s.jobs ==> CarriesUpdate(s.tree, A, j)
    ensures var w := SweepAll(s, cs); forall j :: j in w.state.jobs + w.creations ==> CarriesUpdate(s.tree, A, j)
  {
    if cs != [] {
      var front, c := cs[..|cs| - 1], cs[|cs| - 1];
      assert cs == front + [c];
      assert forall d :: d in cs <==> d in front || d == c;
      assert c in Elements(cs);
      assert GoodListing(false, Elements(front)) by {
        forall d | d in Elements(front) ensures d in Elements(cs) {
        }
      }
      SweepCarries(s, A, front);
      SweepMoves(s, front);
      OneCarries(SweepAll(s, front), A, c);
    } else {
      assert s.jobs + multiset{} == s.jobs;
    }
  }

  lemma ExecuteCarries(s: State, A: set<Collection>)
    requires Opened(s, A, ROOT_ID) && !s.tree.hierarchicalRIDs
    requires forall j :: j in s.jobs ==> CarriesUpdate(s.tree, A, j)
    ensures forall j :: j in Execute(s).jobs ==> CarriesUpdate(s.tree, A, j)
  {
    var cs := Waiting(s, ROOT_ID);
    var s0 := SetWaiting(s, ROOT_ID, []);
    ExecutedIs(s, A);
    SweepMoves(s0, cs);
    SweepCarries(s0, A, cs);
    var s1 := ProcessPendingRemoteNodes(s, ROOT_ID);
    var w := SweepAll(s0, cs);
    assert s1.jobs == w.state.jobs + w.creations;
    var todo := ToDelete(s.tree, s.removedRemoteCollections);
    DeleteListCounts(todo);
    forall j | j in Execute(s).jobs ensures CarriesUpdate(s.tree, A, j) {
      if j in DeleteList(todo) {
        assert j.Delete?;
      }
    }
  }

  lemma ExecuteMovesRight(s: State, A: set<Collection>, A0: set<Collection>)
    requires Opened(s, A, ROOT_ID) && !s.tree.hierarchicalRIDs && A0 <= A
    requires forall m :: m in s.moves ==> MoveRight(s, A0, m)
    ensures forall m :: m in Execute(s).moves ==> MoveRight(Execute(s), A, m)
  {
    var s' := Execute(s);
    ExecuteMarks(s, A);
    forall m | m in s'.moves ensures MoveRight(s', A, m) {
      ExecuteMoves(s, A, m);
      if WantsNow(s, A, m) {
        var c :| TakenUp(s, A, c) && MoveFor(s.tree, c, m);
        assert MarkedNow(s, A, m.col.Uid());
      } else {
        assert m in s.moves && MoveRight(s, A0, m);
      }
    }
  }

  /** Executing keeps client and server in agreement. */
  lemma ExecuteAgrees(s: State, server: Server, A: set<Collection>, A0: set<Collection>)
    requires Opened(s, A, ROOT_ID) && !s.tree.hierarchicalRIDs && A0 <= A && Agrees(s, server, A0)
    ensures Agrees(Execute(s), server, A)
  {
    MoreSeen(s.tree, A0, A);
    ExecuteMovesRight(s, A, A0);
    ExecuteCarries(s, A);
    ExecuteMarks(s, A);
    PlacesAgree(s, Execute(s), server, A0, A);
  }

  /** Where the server keeps things does not depend on what is under way. */
  lemma PlacesAgree(s: State, s': State, server: Server, A: set<Collection>, A': set<Collection>)
    requires Agrees(s, server, A) && A <= A' && s'.tree == s.tree && s.processed <= s'.processed
    requires forall m :: m in s'.moves ==> MoveRight(s', A', m)
    requires forall j :: j in s'.jobs ==> CarriesUpdate(s'.tree, A', j)
    ensures Agrees(s', server, A')
  {
    forall x | x in server
      ensures server[x].parent == LocalParent(s'.tree, x) || MovedTo(s'.tree, A', x, server[x].parent)
    {
      assert server[x].parent == LocalParent(s.tree, x) || MovedTo(s.tree, A, x, server[x].parent);
      MoreSeen(s.tree, A, A');
    }
  }

  // ------------------------------------------------------------------ jobs

  lemma CarriedTarget(t: Tree, A: set<Collection>, j: Job)
    requires TreeOk(t) && !t.hierarchicalRIDs && GoodListing(false, A) && j.Modify? && CarriesUpdate(t, A, j)
    ensures j.col.Uid() in t.localUidMap && j.col.Rid() == Node(t, j.col.Uid()).collection.Rid()
  {
  }

  lemma ModifyAgrees(s: State, server: Server, A: set<Collection>, j: Job)
    requires Syncing(s, A) && !s.tree.hierarchicalRIDs && Agrees(s, server, A) && j in s.jobs && j.Modify?
    ensures Agrees(JobDone(s, j), Write(server, j.col), A)
  {
    FinishedIs(s, j);
    assert CarriesUpdate(s.tree, A, j);
    CarriedTarget(s.tree, A, j);
    SameAgrees(s, JobDone(s, j), server, Write(server, j.col), A);
  }

  /** Less under way, and a server that kept the places of what it still holds. */
  lemma SameAgrees(s: State, s': State, server: Server, server': Server, A: set<Collection>)
    requires Agrees(s, server, A) && s'.tree == s.tree && s'.processed == s.processed
    requires s'.moves <= s.moves && s'.jobs <= s.jobs
    requires forall x :: x in server' ==>
      x in server && server'[x].parent == server[x].parent && server'[x].remoteId == server[x].remoteId
    ensures Agrees(s', server', A)
  {
    forall m | m in s'.moves ensures MoveRight(s', A, m) {
      assert m in s.moves && MoveRight(s, A, m);
    }
    forall j | j in s'.jobs ensures CarriesUpdate(s'.tree, A, j) {
      assert j in s.jobs && CarriesUpdate(s.tree, A, j);
    }
    forall x | x in server'
      ensures server'[x].parent == LocalParent(s'.tree, x) || MovedTo(s'.tree, A, x, server'[x].parent)
    {
      assert server[x].parent == LocalParent(s.tree, x) || MovedTo(s.tree, A, x, server[x].parent);
    }
  }

  lemma DeleteAgrees(s: State, server: Server, A: set<Collection>, j: Job)
    requires Agrees(s, server, A) && j in s.jobs && j.Delete?
    ensures Agrees(JobDone(s, j), RemoveCollection(server, j.col), A)
  {
    FinishedIs(s, j);
    SameAgrees(s, JobDone(s, j), server, RemoveCollection(server, j.col), A);
  }

  /** A collection arrives where it needs to be. */
  lemma ReparentAgrees(s: State, server: Server, A: set<Collection>, x: Id, p: Id)
    requires Agrees(s, server, A) && x in s.processed && MovedTo(s.tree, A, x, p)
    ensures Agrees(s, Reparent(server, x, p), A)
  {
    var server' := Reparent(server, x, p);
    forall y | y in server'
      ensures server'[y].parent == LocalParent(s.tree, y) || MovedTo(s.tree, A, y, server'[y].parent)
    {
      assert server[y].parent == LocalParent(s.tree, y) || MovedTo(s.tree, A, y, server[y].parent);
    }
  }

  lemma MoveAgrees(s: State, server: Server, A: set<Collection>, m: Move)
    requires Syncing(s, A) && !s.tree.hierarchicalRIDs && Agrees(s, server, A) && m in s.moves
    ensures Agrees(MoveDone(s, m), Reparent(server, m.col.Uid(), m.dest.Uid()), A)
  {
    var server' := Reparent(server, m.col.Uid(), m.dest.Uid());
    MovedIs(s, m);
    assert MoveRight(s, A, m);
    MoveLeads(s, A, m);
    ReparentAgrees(s, server, A, m.col.Uid(), m.dest.Uid());
    SameAgrees(s, MoveDone(s, m), server', server', A);
  }

  /** What a collection needs does not change. */
  ghost predicate NeedsKept(t: Tree, t': Tree, c: Collection) {
    && (Match(t, c).Some? ==> Match(t', c) == Match(t, c) && UpdateOf(t', c) == UpdateOf(t, c))
    && (NeedsMove(t, c) ==> NeedsMove(t', c) && MoveOf(t', c) == MoveOf(t, c))
    && (MatchParent(t, c).Some? ==> MatchParent(t', c) == MatchParent(t, c))
  }

  /** A new leaf changes no need. */
  lemma LeafNeeds(t: Tree, A: set<Collection>, p: Id, r: Collection, x: Id, c: Collection)
    requires TreeOk(t) && !t.hierarchicalRIDs && GoodListing(false, A) && r in A && c in A && CanCreate(t, p, r, x)
    ensures var t' := CreateLocalNode(t, Created(t, p, r, x));
      NeedsKept(t, t', c)
  {
    LeafMaps(t, p, r, x);
    CreatedIsNewLeaf(t, p, r, x);
    GrownMatch(t, A, p, r, x, c);
    MatchIsNode(t, A, c);
  }

  lemma LeafAgrees(s: State, s': State, server: Server, A: set<Collection>, p: Id, r: Collection, x: Id)
    requires TreeOk(s.tree) && !s.tree.hierarchicalRIDs && GoodListing(false, A) && r in A && CanCreate(s.tree, p, r, x)
    requires Agrees(s, server, A) && x !in server
    requires s'.tree == CreateLocalNode(s.tree, Created(s.tree, p, r, x)) && s'.processed == s.processed + {x}
    requires s'.moves == s.moves && forall j :: j in s'.jobs ==> j in s.jobs || j.Create?
    ensures Agrees(s', Insert(server, x, CreateJob(s.tree, p, r).col), A)
  {
    var t, t' := s.tree, s'.tree;
    var server' := Insert(server, x, CreateJob(t, p, r).col);
    LeafMaps(t, p, r, x);
    forall c | c in A ensures NeedsKept(t, t', c) {
      LeafNeeds(t, A, p, r, x, c);
    }
    forall m | m in s'.moves ensures MoveRight(s', A, m) {
      assert MoveRight(s, A, m);
    }
    forall j | j in s'.jobs ensures CarriesUpdate(t', A, j) {
      assert j in s.jobs ==> CarriesUpdate(t, A, j);
    }
    forall y | y in server'
      ensures server'[y].parent == LocalParent(t', y) || MovedTo(t', A, y, server'[y].parent)
    {
      if y != x {
        assert server[y].parent == LocalParent(t, y) || MovedTo(t, A, y, server[y].parent);
      }
    }
  }

  lemma CreateAgrees(s: State, server: Server, A: set<Collection>, j: Job, x: Id)
    requires Syncing(s, A) && !s.tree.hierarchicalRIDs && Agrees(s, server, A) && j in s.jobs && j.Create?
    requires x != ROOT_ID && x !in s.tree.localUidMap && x !in server
    ensures Agrees(CreateDone(s, j, x), Insert(server, x, j.col), A)
  {
    var s' := CreateDone(s, j, x);
    var r := CreateRecorded(s, j, x);
    RecordedGrows(s, A, j, x);
    assert CreatesRightly(s.tree, s.jobs, A, j);
    CreateDoneIs(s, A, j, x);
    forall k | k in s'.jobs ensures k in s.jobs || k.Create? {
      assert s'.jobs == r.jobs + (s'.jobs - r.jobs);
    }
    LeafAgrees(s, s', server, A, j.localParent, j.remote, x);
  }

  // ------------------------------------------------------------------ every step

  lemma PlainJobAgrees(s: System, s': System, remote: set<Collection>, j: Job)
    requires AgreesInv(s, remote) && !s.client.tree.hierarchicalRIDs
    requires ModifyFinishes(s, s', j) || DeleteFinishes(s, s', j)
    ensures s.client.localListDone && Agrees(s'.client, s'.server, Seen(s', remote))
  {
    JobsOnlyAfterListing(s, remote);
    if j.Modify? {
      ModifyAgrees(s.client, s.server, Seen(s, remote), j);
    } else {
      DeleteAgrees(s.client, s.server, Seen(s, remote), j);
    }
  }

  lemma OtherJobAgrees(s: System, s': System, remote: set<Collection>)
    requires AgreesInv(s, remote) && !s.client.tree.hierarchicalRIDs
    requires (exists m :: MoveFinishes(s, s', m)) || (exists j, x :: CreateFinishes(s, s', j, x))
    ensures s.client.localListDone && Agrees(s'.client, s'.server, Seen(s', remote))
  {
    JobsOnlyAfterListing(s, remote);
    if m :| MoveFinishes(s, s', m) {
      MoveAgrees(s.client, s.server, Seen(s, remote), m);
    } else {
      var j, x :| CreateFinishes(s, s', j, x);
      CreateAgrees(s.client, s.server, Seen(s, remote), j, x);
    }
  }

  lemma JobAgrees(s: System, s': System, remote: set<Collection>)
    requires AgreesInv(s, remote) && !s.client.tree.hierarchicalRIDs && JobStep(s, s')
    ensures s.client.localListDone && Agrees(s'.client, s'.server, Seen(s', remote))
  {
    if j :| ModifyFinishes(s, s', j) {
      PlainJobAgrees(s, s', remote, j);
    } else if j :| DeleteFinishes(s, s', j) {
      PlainJobAgrees(s, s', remote, j);
    } else {
      OtherJobAgrees(s, s', remote);
    }
  }

  lemma AgreesBefore(s: System, s': System, remote: set<Collection>, removed: seq<Collection>)
    requires AgreesInv(s, remote) && !s.client.tree.hierarchicalRIDs && DeliveryReports(s, s', removed)
    requires s'.client.localListDone
    ensures Agrees(s.client, s.server, Seen(s, remote))
  {
    if !s.client.localListDone {
      ReportsAreSteps(s, s', removed);
      ListingStep(s, s', remote);
      ListedTreeOk(s, remote);
      ListedAgrees(s.client, s.server, Seen(s, remote));
    }
  }

  lemma ExecutionAgrees(c: State, s2: State, c': State, server: Server, removed: seq<Collection>, A0: set<Collection>,
          A: set<Collection>)
    requires Executes(c, s2, c', removed, A) && !c.tree.hierarchicalRIDs && A0 <= A && Agrees(c, server, A0)
    ensures Agrees(c', server, A)
  {
    forall m | m in s2.moves ensures MoveRight(s2, A0, m) {
      assert MoveRight(c, A0, m);
    }
    PlacesAgree(c, s2, server, A0, A0);
    ExecuteAgrees(s2, server, A, A0);
  }

  lemma DeliveryAgrees(s: System, s': System, remote: set<Collection>, removed: seq<Collection>)
    requires AgreesInv(s, remote) && !s.client.tree.hierarchicalRIDs && DeliveryReports(s, s', removed)
    requires s'.client.localListDone
    ensures Agrees(s'.client, s'.server, Seen(s', remote))
  {
    AgreesBefore(s, s', remote, removed);
    var s2 := DeliveryExecutes(s, s', remote, removed);
    SeenGrows(s, s', remote, removed);
    ExecutionAgrees(s.client, s2, s'.client, s.server, removed, Seen(s, remote), Seen(s', remote));
  }

  lemma SeenGrows(s: System, s': System, remote: set<Collection>, removed: seq<Collection>)
    requires DeliveryReports(s, s', removed)
    ensures Seen(s, remote) <= Seen(s', remote)
  {
  }

  /** With hierarchical remote ids nothing is moved. */
  lemma StepMovesNothing(s: System, s': System, remote: set<Collection>)
    requires AgreesInv(s, remote) && s.client.tree.hierarchicalRIDs && Step(s, s') && s'.client.localListDone
    ensures s'.client.moves == multiset{}
  {
    if JobStep(s, s') {
      NoJobBeforeListing(s, s', remote);
      JobMoves(s, s', remote);
    } else {
      var removed := StepReports(s, s');
      var s2 := DeliveryExecutes(s, s', remote, removed);
      ExecutedIs(s2, Seen(s', remote));
      PassOk(s2, Seen(s', remote), ROOT_ID);
    }
  }

  lemma StepAgrees(s: System, s': System, remote: set<Collection>)
    requires AgreesInv(s, remote) && Step(s, s')
    ensures AgreesInv(s', remote)
  {
    StepInv(s, s', remote);
    if s'.client.localListDone {
      if s.client.tree.hierarchicalRIDs {
        StepMovesNothing(s, s', remote);
      } else if JobStep(s, s') {
        JobAgrees(s, s', remote);
      } else {
        var removed := StepReports(s, s');
        DeliveryAgrees(s, s', remote, removed);
      }
    }
  }

  lemma {:induction false} RunAgrees(run: seq<System>, remote: set<Collection>, i: nat)
    requires Run(run, remote) && i < |run|
    ensures AgreesInv(run[i], remote)
  {
    if i == 0 {
      InitInv(run[0], remote);
    } else {
      RunAgrees(run, remote, i - 1);
      StepAgrees(run[i - 1], run[i], remote);
    }
  }

  // ------------------------------------------------------------------ which moves are issued

  lemma NobodyTakenUp(s: State, A: set<Collection>, m: Move)
    requires Syncing(s, A)
    ensures !WantsNow(s, A, m)
  {
    forall c | c in A ensures !TakenUp(s, A, c) {
      assert Settled(s, s.jobs, c);
    }
  }

  lemma DeliveryMoves(s: System, s': System, remote: set<Collection>, removed: seq<Collection>, m: Move)
    requires AgreesInv(s, remote) && !s.client.tree.hierarchicalRIDs && DeliveryReports(s, s', removed)
    requires s'.client.localListDone
    ensures s'.client.moves[m] == s.client.moves[m] + One(WantsNow(s.client, Seen(s', remote), m))
  {
    var s2 := DeliveryExecutes(s, s', remote, removed);
    ExecuteMoves(s2, Seen(s', remote), m);
    forall c ensures TakenUp(s2, Seen(s', remote), c) <==> TakenUp(s.client, Seen(s', remote), c) {
    }
  }

  lemma JobMoves(s: System, s': System, remote: set<Collection>)
    requires AgreesInv(s, remote) && JobStep(s, s')
    ensures s'.client.moves == s.client.moves
      || exists m :: MoveFinishes(s, s', m) && s'.client.moves == s.client.moves - multiset{m}
  {
    var r := ResultOf(s, s');
    match r
    case PlainResult(j) =>
      FinishedIs(s.client, j);
    case MoveResult(m) =>
      MovedIs(s.client, m);
    case CreateResult(j, x) =>
      JobsOnlyAfterListing(s, remote);
      CreateDoneIs(s.client, Seen(s, remote), j, x);
  }

  lemma MoveUsedUp(s: System, s': System, m: Move)
    requires MoveFinishes(s, s', m)
    ensures s'.client.moves[m] + 1 == s.client.moves[m]
  {
    MovedIs(s.client, m);
  }

  /** Every step of every run with global remote ids issues exactly the moves that the collections
      it updates need, one to the node that matches the parent for each that hangs elsewhere, and
      uses up a move only when it finishes. */
  lemma MovesExact(s: System, s': System, remote: set<Collection>, m: Move)
    requires AgreesInv(s, remote) && !s.client.tree.hierarchicalRIDs && Step(s, s') && s'.client.localListDone
    ensures s'.client.moves[m] + One(MoveFinishes(s, s', m)) ==
      s.client.moves[m] + One(WantsNow(s.client, Seen(s', remote), m))
  {
    if JobStep(s, s') {
      JobAgrees(s, s', remote);
      NobodyTakenUp(s.client, Seen(s, remote), m);
      JobMovesExact(s, s', remote, m);
    } else {
      var removed := StepReports(s, s');
      DeliveryMoves(s, s', remote, removed, m);
      assert MoveFinishes(s, s', m) ==> JobStep(s, s');
    }
  }

  lemma JobMovesExact(s: System, s': System, remote: set<Collection>, m: Move)
    requires AgreesInv(s, remote) && JobStep(s, s')
    ensures s'.client.moves[m] + One(MoveFinishes(s, s', m)) == s.client.moves[m]
  {
    JobMoves(s, s', remote);
    if MoveFinishes(s, s', m) {
      MoveUsedUp(s, s', m);
    } else if m' :| MoveFinishes(s, s', m') {
      MoveUsedUp(s, s', m');
    }
  }

  /** The result of a job updates nothing. */
  lemma NobodyUpdated(s: System, s': System, remote: set<Collection>)
    requires AgreesInv(s, remote) && !s.client.tree.hierarchicalRIDs && JobStep(s, s')
    ensures forall c :: !TakenUp(s.client, Seen(s', remote), c)
  {
    JobAgrees(s, s', remote);
    forall c | c in Seen(s, remote) ensures !TakenUp(s.client, Seen(s', remote), c) {
      assert Settled(s.client, s.client.jobs, c);
    }
  }

  /** Needing a move is being stored elsewhere on the server. */
  lemma NeedsIsElsewhere(s: System, s': System, remote: set<Collection>, c: Collection)
    requires AgreesInv(s, remote) && !s.client.tree.hierarchicalRIDs && Step(s, s') && s'.client.localListDone
    requires TakenUp(s.client, Seen(s', remote), c) && MatchParent(s.client.tree, c).Some?
    requires Match(s.client.tree, c).value in s.server
    ensures NeedsMove(s.client.tree, c) <==>
      s.server[Match(s.client.tree, c).value].parent != MatchParent(s.client.tree, c).value
  {
    if JobStep(s, s') {
      NobodyUpdated(s, s', remote);
    } else {
      var removed := StepReports(s, s');
      AgreesBefore(s, s', remote, removed);
    }
  }

  // ------------------------------------------------------------------ where moves end

  /** x is stored below p, or a move there is under way. */
  ghost predicate Heading(s: System, remote: set<Collection>, c: Collection, x: Id, p: Id) {
    var t := s.client.tree;
    && s.client.localListDone && c in Seen(s, remote) && Match(t, c) == Some(x) && MatchParent(t, c) == Some(p)
    && (x in s.server ==> s.server[x].parent == p || (NeedsMove(t, c) && MoveOf(t, c) in s.client.moves))
  }

  lemma StartsHeading(s: System, s': System, remote: set<Collection>, c: Collection, x: Id, p: Id)
    requires AgreesInv(s, remote) && !s.client.tree.hierarchicalRIDs && Step(s, s') && s'.client.localListDone
    requires TakenUp(s.client, Seen(s', remote), c)
    requires Match(s.client.tree, c) == Some(x) && MatchParent(s.client.tree, c) == Some(p)
    ensures Heading(s', remote, c, x, p)
  {
    if JobStep(s, s') {
      NobodyUpdated(s, s', remote);
    } else {
      var removed := StepReports(s, s');
      AgreesBefore(s, s', remote, removed);
      var s2 := DeliveryExecutes(s, s', remote, removed);
      ExecuteMarks(s2, Seen(s', remote));
      if NeedsMove(s.client.tree, c) {
        DeliveryMoves(s, s', remote, removed, MoveOf(s.client.tree, c));
        assert WantsNow(s.client, Seen(s', remote), MoveOf(s.client.tree, c));
      }
    }
  }

  lemma DeliveryHeading(s: System, s': System, remote: set<Collection>, removed: seq<Collection>, c: Collection,
          x: Id, p: Id)
    requires AgreesInv(s, remote) && !s.client.tree.hierarchicalRIDs && DeliveryReports(s, s', removed)
    requires Heading(s, remote, c, x, p) && s'.client.localListDone
    ensures Heading(s', remote, c, x, p)
  {
    var s2 := DeliveryExecutes(s, s', remote, removed);
    ExecuteMarks(s2, Seen(s', remote));
    SeenGrows(s, s', remote, removed);
    if NeedsMove(s.client.tree, c) {
      DeliveryMoves(s, s', remote, removed, MoveOf(s.client.tree, c));
    }
  }

  lemma OwnMove(s: State, A: set<Collection>, m: Move, c: Collection)
    requires Syncing(s, A) && !s.tree.hierarchicalRIDs && MoveRight(s, A, m) && c in A
    requires Match(s.tree, c) == Some(m.col.Uid())
    ensures MatchParent(s.tree, c) == Some(m.dest.Uid())
  {
    var d :| d in A && MoveFor(s.tree, d, m);
    MatchInjective(s.tree, A, c, d);
    MatchIsNode(s.tree, A, c);
  }

  lemma MoveHeading(s: System, s': System, remote: set<Collection>, m: Move, c: Collection, x: Id, p: Id)
    requires AgreesInv(s, remote) && !s.client.tree.hierarchicalRIDs && MoveFinishes(s, s', m)
    requires Heading(s, remote, c, x, p)
    ensures Heading(s', remote, c, x, p)
  {
    var A := Seen(s, remote);
    MovedIs(s.client, m);
    assert MoveRight(s.client, A, m);
    if m.col.Uid() == x {
      OwnMove(s.client, A, m, c);
    } else if NeedsMove(s.client.tree, c) {
      assert m != MoveOf(s.client.tree, c);
    }
  }

  lemma CreateHeading(s: System, s': System, remote: set<Collection>, j: Job, y: Id, c: Collection, x: Id, p: Id)
    requires AgreesInv(s, remote) && !s.client.tree.hierarchicalRIDs && CreateFinishes(s, s', j, y)
    requires Heading(s, remote, c, x, p)
    ensures Heading(s', remote, c, x, p)
  {
    var A := Seen(s, remote);
    RecordedGrows(s.client, A, j, y);
    assert CreatesRightly(s.client.tree, s.client.jobs, A, j);
    CreateDoneIs(s.client, A, j, y);
    LeafNeeds(s.client.tree, A, j.localParent, j.remote, y, c);
    MatchIsNode(s.client.tree, A, c);
  }

  lemma PlainHeading(s: System, s': System, remote: set<Collection>, j: Job, c: Collection, x: Id, p: Id)
    requires AgreesInv(s, remote) && (ModifyFinishes(s, s', j) || DeleteFinishes(s, s', j))
    requires Heading(s, remote, c, x, p)
    ensures Heading(s', remote, c, x, p)
  {
    FinishedIs(s.client, j);
  }

  lemma StepHeading(s: System, s': System, remote: set<Collection>, c: Collection, x: Id, p: Id)
    requires AgreesInv(s, remote) && !s.client.tree.hierarchicalRIDs && Step(s, s') && Heading(s, remote, c, x, p)
    ensures Heading(s', remote, c, x, p)
  {
    if j :| ModifyFinishes(s, s', j) {
      PlainHeading(s, s', remote, j, c, x, p);
    } else if j :| DeleteFinishes(s, s', j) {
      PlainHeading(s, s', remote, j, c, x, p);
    } else if m :| MoveFinishes(s, s', m) {
      MoveHeading(s, s', remote, m, c, x, p);
    } else if j, y :| CreateFinishes(s, s', j, y) {
      CreateHeading(s, s', remote, j, y, c, x, p);
    } else {
      var removed := StepReports(s, s');
      ListingStays(s, s', remote);
      DeliveryHeading(s, s', remote, removed, c, x, p);
    }
  }

  /** Collection c is updated in step k, while its match is x and its parent's match is p. */
  ghost predicate UpdatedAt(run: seq<System>, remote: set<Collection>, k: nat, c: Collection, x: Id, p: Id) {
    && k + 1 < |run| && run[k + 1].client.localListDone
    && TakenUp(run[k].client, Seen(run[k + 1], remote), c)
    && Match(run[k].client.tree, c) == Some(x) && MatchParent(run[k].client.tree, c) == Some(p)
  }

  lemma FirstHeading(run: seq<System>, remote: set<Collection>, k: nat, c: Collection, x: Id, p: Id)
    requires Run(run, remote) && !run[0].client.tree.hierarchicalRIDs && UpdatedAt(run, remote, k, c, x, p)
    ensures Heading(run[k + 1], remote, c, x, p)
  {
    RunAgrees(run, remote, k);
    RunMode(run, remote, k);
    StartsHeading(run[k], run[k + 1], remote, c, x, p);
  }

  lemma NextHeading(run: seq<System>, remote: set<Collection>, i: nat, c: Collection, x: Id, p: Id)
    requires Run(run, remote) && !run[0].client.tree.hierarchicalRIDs && i + 1 < |run|
    requires Heading(run[i], remote, c, x, p)
    ensures Heading(run[i + 1], remote, c, x, p)
  {
    RunAgrees(run, remote, i);
    RunMode(run, remote, i);
    StepHeading(run[i], run[i + 1], remote, c, x, p);
  }

  lemma {:induction false} RunHeading(run: seq<System>, remote: set<Collection>, k: nat, i: nat, c: Collection,
          x: Id, p: Id)
    requires Run(run, remote) && !run[0].client.tree.hierarchicalRIDs && k <= i < |run|
    requires Heading(run[k], remote, c, x, p)
    ensures Heading(run[i], remote, c, x, p)
    decreases i - k
  {
    if k < i {
      NextHeading(run, remote, k, c, x, p);
      RunHeading(run, remote, k + 1, i, c, x, p);
    }
  }

  /** In every run with global remote ids: a collection that was updated while its parent had a match
      is, once the sync has committed, stored below exactly that match, unless it was deleted. */
  lemma MovedHome(run: seq<System>, remote: set<Collection>, k: nat, i: nat, c: Collection, x: Id, p: Id)
    requires Run(run, remote) && !run[0].client.tree.hierarchicalRIDs && UpdatedAt(run, remote, k, c, x, p)
    requires k < i < |run| && Committed in run[i].client.outcomes && x in run[i].server
    ensures run[i].server[x].parent == p
  {
    FirstHeading(run, remote, k, c, x, p);
    RunHeading(run, remote, k + 1, i, c, x, p);
    RunInv(run, remote, i);
    assert |run[i].client.moves| == 0;
  }
}
