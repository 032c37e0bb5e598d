/** The state of a collection synchronisation and what each of its operations does to it
    (akonadi/collectionsync.cpp). Nodes of the local tree are addressed by the uid of
    their collection; in-flight server jobs form a multiset, so nothing below depends on
    the order in which they were issued or will complete. */
module SyncState {
  import opened Collections
  import opened Trees

  /** The part of a local node that says where it sits in the tree. Which remote nodes wait
      at it and whether it was processed is kept beside the tree, in `State`. */
  datatype LocalNode = LocalNode(collection: Collection, childNodes: seq<Id>, childRidMap: map<string, Id>)

  /** All local nodes by uid, by global remote id, and the uids of nodes whose parent has
      not been listed yet, by that parent. */
  datatype Tree = Tree(
    hierarchicalRIDs: bool,
    localUidMap: map<Id, LocalNode>,
    localRidMap: map<string, Id>,
    localPendingCollections: map<Id, seq<Id>>)

  /** Jobs whose completion counts as progress. A create job remembers the local parent
      node and the remote node it was issued for. */
  datatype Job =
    | Modify(col: Collection)
    | Create(localParent: Id, remote: Collection, col: Collection)
    | Delete(col: Collection)

  datatype Move = Move(col: Collection, dest: Collection)

  datatype Outcome = Committed | InconsistentLocalTree | BrokenAncestorChain | UnresolvedOrphans

  datatype State = State(
    tree: Tree,
    pendingRemoteNodes: map<Id, seq<Collection>>,
    processed: set<Id>,
    incremental: bool,
    streaming: bool,
    localListDone: bool,
    deliveryDone: bool,
    pendingJobs: int,
    progress: int,
    totalAmount: int,
    removedRemoteCollections: seq<Collection>,
    // the server side of the job: what is in flight, and what was ever asked for
    jobs: multiset<Job>,
    moves: multiset<Move>,
    handled: multiset<Collection>,
    deleted: multiset<Collection>,
    outcomes: seq<Outcome>)

  function InitialState(hierarchical: bool, streaming: bool): State {
    State(InitialTree(hierarchical), map[], {ROOT_ID}, false, streaming, false, false, 0, 0, 0, [],
          multiset{}, multiset{}, multiset{}, multiset{}, [])
  }

  // ------------------------------------------------------------------ the local tree

  const BLANK := LocalNode(Invalid, [], map[])

  function InitialTree(hierarchical: bool): Tree {
    Tree(hierarchical, map[ROOT_ID := BLANK.(collection := ROOT)], map["" := ROOT_ID], map[])
  }

  /** The node with the given uid; no operation ever follows an unknown uid. */
  function Node(t: Tree, x: Id): LocalNode {
    if x in t.localUidMap then t.localUidMap[x] else BLANK
  }

  /** Parent pointers of the local tree. */
  function LocalParents(t: Tree): ParentMap {
    map x | x in t.localUidMap && x != ROOT_ID :: t.localUidMap[x].collection.Parent().Uid()
  }

  /** Appends a child to a node's child list and, if it has one, files its remote id. */
  function AddChild(n: LocalNode, child: Id, rid: string): LocalNode {
    LocalNode(n.collection, n.childNodes + [child],
              if rid != "" then n.childRidMap[rid := child] else n.childRidMap)
  }

  function AddChildren(t: Tree, n: LocalNode, kids: seq<Id>): LocalNode {
    if kids == [] then n
    else
      var last := kids[|kids| - 1];
      AddChild(AddChildren(t, n, kids[..|kids| - 1]), last, Node(t, last).collection.Rid())
  }

  /** The children of a collection that arrived before it. */
  function Parked(t: Tree, p: Id): seq<Id> {
    if p in t.localPendingCollections then t.localPendingCollections[p] else []
  }

  /** Files a collection under its uid and remote id and lets it adopt its parked children. */
  function EnterNode(t: Tree, col: Collection): Tree {
    var x := col.Uid();
    Tree(t.hierarchicalRIDs,
         t.localUidMap[x := AddChildren(t, LocalNode(col, [], map[]), Parked(t, x))],
         if !t.hierarchicalRIDs && col.Rid() != "" then t.localRidMap[col.Rid() := x] else t.localRidMap,
         t.localPendingCollections - {x})
  }

  /** Hangs a node below its parent or, if that is still missing, parks its uid. */
  function AttachNode(t: Tree, x: Id, p: Id, rid: string): Tree {
    if p in t.localUidMap then t.(localUidMap := t.localUidMap[p := AddChild(t.localUidMap[p], x, rid)])
    else t.(localPendingCollections := t.localPendingCollections[p := Parked(t, p) + [x]])
  }

  function CreateLocalNode(t: Tree, col: Collection): Tree {
    AttachNode(EnterNode(t, col), col.Uid(), col.Parent().Uid(), col.Rid())
  }

  function LocalCollectionsReceived(t: Tree, cols: seq<Collection>): Tree {
    if cols == [] then t
    else CreateLocalNode(LocalCollectionsReceived(t, cols[..|cols| - 1]), cols[|cols| - 1])
  }

  // ------------------------------------------------------------------ remote listing

  /** The remote nodes waiting at a local node. */
  function Waiting(s: State, x: Id): seq<Collection> {
    if x in s.pendingRemoteNodes then s.pendingRemoteNodes[x] else []
  }

  function SetWaiting(s: State, x: Id, cs: seq<Collection>): State {
    s.(pendingRemoteNodes := if cs == [] then s.pendingRemoteNodes - {x} else s.pendingRemoteNodes[x := cs])
  }

  /** Remote collections without a remote id are skipped; the others wait at the root. */
  function CreateRemoteNode(s: State, col: Collection): State {
    if col.Rid() == "" then s else SetWaiting(s, ROOT_ID, Waiting(s, ROOT_ID) + [col])
  }

  function CreateRemoteNodes(s: State, cols: seq<Collection>): State {
    if cols == [] then s
    else CreateRemoteNode(CreateRemoteNodes(s, cols[..|cols| - 1]), cols[|cols| - 1])
  }

  // ------------------------------------------------------------------ matching

  /** First child with the given name and no remote id; never below the root. */
  function FindLocalChildNodeByName(t: Tree, p: Id, name: string): Option<Id> {
    if name == "" || p == ROOT_ID then None else FirstByName(t, Node(t, p).childNodes, name)
  }

  function FirstByName(t: Tree, kids: seq<Id>, name: string): Option<Id> {
    if kids == [] then None
    else
      var c := Node(t, kids[0]).collection;
      if c.Name() == name && c.Rid() == "" then Some(kids[0]) else FirstByName(t, kids[1..], name)
  }

  /** The local node that matches a remote collection, if there is one yet. */
  function FindMatchingLocalNode(t: Tree, c: Collection): Option<Id>
    decreases c
  {
    if !t.hierarchicalRIDs then
      if c.Rid() in t.localRidMap then Some(t.localRidMap[c.Rid()]) else None
    else if c.Uid() == ROOT_ID || c.Rid() == "" then Some(ROOT_ID)
    else if c.Parent().Uid() < 0 && c.Parent().Rid() == "" then None
    else
      var p := if c.Parent().Uid() == ROOT_ID || c.Parent().Rid() == "" then Some(ROOT_ID)
               else FindMatchingLocalNode(t, c.Parent());
      if p.None? then None
      else if c.Rid() in Node(t, p.value).childRidMap then Some(Node(t, p.value).childRidMap[c.Rid()])
      else FindLocalChildNodeByName(t, p.value, c.Name())
  }

  /** A best ancestor, and whether it is the collection itself. */
  datatype Ancestor = Ancestor(node: Option<Id>, exact: bool)

  /** The nearest existing ancestor of a remote collection; no node at all if the chain of
      parents does not end in the root. */
  function FindBestLocalAncestor(t: Tree, c: Collection): Ancestor
    decreases c
  {
    if !t.hierarchicalRIDs then Ancestor(Some(ROOT_ID), false)
    else if c.IsRoot() then Ancestor(Some(ROOT_ID), true)
    else if c.Parent().Uid() < 0 && c.Parent().Rid() == "" then Ancestor(None, false)
    else
      var up := FindBestLocalAncestor(t, c.Parent());
      if !up.exact || up.node.None? then Ancestor(up.node, false)
      else if c.Rid() in Node(t, up.node.value).childRidMap then
        Ancestor(Some(Node(t, up.node.value).childRidMap[c.Rid()]), true)
      else Ancestor(up.node, false)
  }

  // ------------------------------------------------------------------ jobs

  /** What a matched local collection is updated to: the remote data under the local uid,
      with the local display attribute taking precedence. */
  function Updated(local: Collection, remote: Collection, parent: Collection): Collection {
    Collection(local.Uid(), remote.Rid(), remote.Name(),
               if local.Display().Some? then local.Display() else remote.Display(), parent)
  }

  /** The modify job keeps the local parent, so that it never moves anything itself. */
  function ModifyJob(local: Collection, remote: Collection): Job {
    Modify(Updated(local, remote, local.Parent()))
  }

  function CreateJob(t: Tree, p: Id, remote: Collection): Job {
    Create(p, remote,
           Collection(remote.Uid(), remote.Rid(), remote.Name(), remote.Display(), Node(t, p).collection))
  }

  function IssueModify(s: State, local: Collection, remote: Collection): State {
    s.(pendingJobs := s.pendingJobs + 1,
       jobs := s.jobs + multiset{ModifyJob(local, remote)},
       handled := s.handled + multiset{remote})
  }

  /** Updates a matched node; with global remote ids it also moves it if its parent changed. */
  function UpdateLocalCollection(s: State, x: Id, remote: Collection): State {
    MarkProcessed(StartUpdate(s, Node(s.tree, x).collection, remote), x)
  }

  function StartUpdate(s: State, local: Collection, remote: Collection): State {
    var s1 := IssueModify(s, local, remote);
    if s.tree.hierarchicalRIDs then s1 else MoveIfNeeded(s1, local, remote)
  }

  function MarkProcessed(s: State, x: Id): State {
    s.(processed := s.processed + {x})
  }

  function MoveIfNeeded(s: State, local: Collection, remote: Collection): State {
    MoveTo(s, local, remote, FindMatchingLocalNode(s.tree, remote.Parent()))
  }

  function MoveTo(s: State, local: Collection, remote: Collection, newParent: Option<Id>): State {
    var oldParent := if local.Parent().Uid() in s.tree.localUidMap then Some(local.Parent().Uid()) else None;
    if newParent.Some? && oldParent != newParent then
      s.(pendingJobs := s.pendingJobs + 1,
         moves := s.moves + multiset{Move(Updated(local, remote, remote.Parent()),
             Node(s.tree, newParent.value).collection)})
    else s
  }

  // ------------------------------------------------------------------ processing

  /** A pass over waiting remote nodes. Creations are collected and only issued at the end
      of the pass; a broken ancestor chain aborts it. */
  datatype Sweep = Sweep(state: State, creations: multiset<Job>, created: multiset<Collection>, aborted: bool)

  function ProcessOne(w: Sweep, c: Collection): Sweep {
    if w.aborted then w
    else
      var t := w.state.tree;
      var x := FindMatchingLocalNode(t, c);
      if x.Some? then ProcessMatched(w, x.value, c)
      else
        var p := FindMatchingLocalNode(t, c.Parent());
        if p.Some? then ProcessCreatable(w, p.value, c) else ProcessPremature(w, FindBestLocalAncestor(t, c).node, c)
  }

  function ProcessMatched(w: Sweep, x: Id, c: Collection): Sweep {
    w.(state := UpdateLocalCollection(w.state, x, c))
  }

  function ProcessCreatable(w: Sweep, p: Id, c: Collection): Sweep {
    w.(creations := w.creations + multiset{CreateJob(w.state.tree, p, c)}, created := w.created + multiset{c})
  }

  function ProcessPremature(w: Sweep, b: Option<Id>, c: Collection): Sweep {
    if b.None? then w.(state := w.state.(outcomes := w.state.outcomes + [BrokenAncestorChain]), aborted := true)
    else w.(state := SetWaiting(w.state, b.value, Waiting(w.state, b.value) + [c]))
  }

  function SweepAll(s: State, cs: seq<Collection>): Sweep {
    if cs == [] then Sweep(s, multiset{}, multiset{}, false)
    else ProcessOne(SweepAll(s, cs[..|cs| - 1]), cs[|cs| - 1])
  }

  function IssueCreations(s: State, js: multiset<Job>, cs: multiset<Collection>): State {
    s.(pendingJobs := s.pendingJobs + |js|, jobs := s.jobs + js, handled := s.handled + cs)
  }

  /** Re-examines the remote nodes waiting at a local node. */
  function ProcessPendingRemoteNodes(s: State, x: Id): State {
    var w := SweepAll(SetWaiting(s, x, []), Waiting(s, x));
    if w.aborted then w.state else IssueCreations(w.state, w.creations, w.created)
  }

  // ------------------------------------------------------------------ deletion

  /** x hangs below a in the local tree, or is a. */
  ghost predicate Below(t: Tree, x: Id, a: Id) {
    Under(LocalParents(t), x, a)
  }

  /** Deletion is for unprocessed nodes with a remote id that have no processed node at or
      below them and whose proper ancestors are all processed. */
  ghost predicate Deletable(t: Tree, processed: set<Id>, x: Id) {
    && x in t.localUidMap && x != ROOT_ID
    && Node(t, x).collection.Rid() != ""
    && (forall y :: y in t.localUidMap && Below(t, y, x) ==> y !in processed)
    && (forall a :: a in t.localUidMap && Below(t, x, a) && a != x ==> a in processed)
  }

  ghost function DeletableCollections(t: Tree, processed: set<Id>): set<Collection> {
    set x | x in t.localUidMap && Deletable(t, processed, x) :: Node(t, x).collection
  }

  ghost function DeleteJobs(cols: set<Collection>): set<Job> {
    set c | c in cols :: Delete(c)
  }

  /** Deletes the unprocessed part of the tree. */
  ghost function DeleteUnprocessedLocalNodes(s: State): State {
    if s.incremental then s
    else
      var cols := DeletableCollections(s.tree, s.processed);
      s.(totalAmount := s.totalAmount + |cols|,
         pendingJobs := s.pendingJobs + |cols|,
         jobs := s.jobs + multiset(DeleteJobs(cols)),
         deleted := s.deleted + multiset(cols))
  }

  function IssueDelete(s: State, col: Collection): State {
    s.(pendingJobs := s.pendingJobs + 1,
       jobs := s.jobs + multiset{Delete(col)},
       deleted := s.deleted + multiset{col})
  }

  function IssueDeletes(s: State, cols: seq<Collection>): State {
    if cols == [] then s else IssueDelete(IssueDeletes(s, cols[..|cols| - 1]), cols[|cols| - 1])
  }

  function DeleteLocalCollections(s: State, cols: seq<Collection>): State {
    IssueDeletes(s.(totalAmount := s.totalAmount + |cols|), cols)
  }

  /** The local collections matching a list of remote ones. */
  function MatchingLocals(t: Tree, cols: seq<Collection>): seq<Collection> {
    if cols == [] then []
    else
      var rest := MatchingLocals(t, cols[..|cols| - 1]);
      var x := FindMatchingLocalNode(t, cols[|cols| - 1]);
      if x.Some? then rest + [Node(t, x.value).collection] else rest
  }

  function DeleteRemoved(s: State): State {
    var cols := if s.tree.hierarchicalRIDs then MatchingLocals(s.tree, s.removedRemoteCollections)
        else s.removedRemoteCollections;
    DeleteLocalCollections(s, cols).(removedRemoteCollections := [])
  }

  // ------------------------------------------------------------------ control

  /** Some remote node still waits somewhere in the local tree. */
  ghost predicate HasOrphans(s: State) {
    exists x :: Waiting(s, x) != []
  }

  ghost function CheckDone(s: State): State {
    if !s.deliveryDone || s.pendingJobs > 0 || !s.localListDone then s
    else s.(outcomes := s.outcomes + [if HasOrphans(s) then UnresolvedOrphans else Committed])
  }

  ghost function Execute(s: State): State {
    if !s.localListDone then s
    else
      var s1 := ProcessPendingRemoteNodes(s, ROOT_ID);
      var s2 := if s1.deliveryDone then DeleteUnprocessedLocalNodes(s1) else s1;
      CheckDone(DeleteRemoved(s2))
  }

  ghost function LocalFetchResult(s: State): State {
    if s.tree.localPendingCollections != map[] then s.(outcomes := s.outcomes + [InconsistentLocalTree])
    else Execute(s.(localListDone := true))
  }

  /** A full listing, or one chunk of it when streaming. */
  ghost function SetRemoteCollections(s: State, cols: seq<Collection>): State {
    var s1 := CreateRemoteNodes(s.(totalAmount := s.totalAmount + |cols|), cols);
    Execute(if s.streaming then s1 else s1.(deliveryDone := true))
  }

  /** An incremental listing, or one chunk of it when streaming. */
  ghost function SetRemoteChanges(s: State, changed: seq<Collection>, removed: seq<Collection>): State {
    var s1 := CreateRemoteNodes(s.(totalAmount := s.totalAmount + |changed|, incremental := true), changed);
    var s2 := s1.(removedRemoteCollections := s1.removedRemoteCollections + removed);
    Execute(if s.streaming then s2 else s2.(deliveryDone := true))
  }

  ghost function RetrievalDone(s: State): State {
    Execute(s.(deliveryDone := true))
  }

  /** A modify or delete job finished. */
  ghost function JobDone(s: State, j: Job): State {
    CheckDone(s.(jobs := s.jobs - multiset{j}, pendingJobs := s.pendingJobs - 1, progress := s.progress + 1))
  }

  ghost function MoveDone(s: State, m: Move): State {
    CheckDone(s.(moves := s.moves - multiset{m}, pendingJobs := s.pendingJobs - 1))
  }

  /** The state in which the waiting nodes are re-examined after a create job finished: the
      new collection is in the tree under its uid and counts as processed. */
  function CreateRecorded(s: State, j: Job, newId: Id): State
    requires j.Create?
  {
    s.(tree := CreateLocalNode(s.tree, NewLocal(j, newId)),
       processed := s.processed + {newId},
       jobs := s.jobs - multiset{j},
       pendingJobs := s.pendingJobs - 1,
       progress := s.progress + 1)
  }

  /** The collection a create job reports: its argument with the uid the server chose. */
  function NewLocal(j: Job, newId: Id): Collection
    requires j.Create?
  {
    Collection(newId, j.col.Rid(), j.col.Name(), j.col.Display(), j.col.Parent())
  }

  ghost function CreateDone(s: State, j: Job, newId: Id): State
    requires j.Create?
  {
    var s1 := ProcessPendingRemoteNodes(CreateRecorded(s, j, newId), j.localParent);
    CheckDone(if s.tree.hierarchicalRIDs then s1 else ProcessPendingRemoteNodes(s1, ROOT_ID))
  }
}
