/** The synchronisation job itself (akonadi/collectionsync.cpp): a tree of node objects and a
    handful of maps, flags and counters, updated in place. Every method is proved against
    the state transition of the same name in SyncState; what whole runs of those transitions
    keep and reach is proved in the other Sync modules. */
module CollectionSync {
  import opened Collections
  import opened Trees
  import opened SyncState
  import opened SyncListing
  import opened SyncDeletion
  import opened SyncNodes

  // ------------------------------------------------------------------ pending creations

  type Creations = map<TreeNode, seq<Collection>>

  function JobsFor(t: Tree, p: Id, cs: seq<Collection>): multiset<Job> {
    if cs == [] then multiset{} else JobsFor(t, p, cs[..|cs| - 1]) + multiset{CreateJob(t, p, cs[|cs| - 1])}
  }

  lemma JobsForNext(t: Tree, p: Id, cs: seq<Collection>, c: Collection)
    ensures JobsFor(t, p, cs + [c]) == JobsFor(t, p, cs) + multiset{CreateJob(t, p, c)}
  {
    assert (cs + [c])[..|cs|] == cs;
  }

  ghost function JobsByParent(t: Tree, pc: Creations): map<TreeNode, multiset<Job>> {
    map n | n in pc :: JobsFor(t, n.Uid(), pc[n])
  }

  ghost function CreatedByParent(pc: Creations): map<TreeNode, multiset<Collection>> {
    map n | n in pc :: multiset(pc[n])
  }

  function ListAt(pc: Creations, n: TreeNode): seq<Collection> {
    if n in pc then pc[n] else []
  }

  /** Taking a parent off the table takes its jobs off. */
  lemma CreationsTake(t: Tree, pc: Creations, n: TreeNode)
    requires n in pc
    ensures Sum(JobsByParent(t, pc)) == Sum(JobsByParent(t, pc - {n})) + JobsFor(t, n.Uid(), pc[n])
    ensures Sum(CreatedByParent(pc)) == Sum(CreatedByParent(pc - {n})) + multiset(pc[n])
  {
    JobsWithout(t, pc, n);
    CreatedWithout(pc, n);
    SumTake(JobsByParent(t, pc), n);
    SumTake(CreatedByParent(pc), n);
  }

  lemma JobsWithout(t: Tree, pc: Creations, n: TreeNode)
    ensures JobsByParent(t, pc) - {n} == JobsByParent(t, pc - {n})
  {
  }

  lemma CreatedWithout(pc: Creations, n: TreeNode)
    ensures CreatedByParent(pc) - {n} == CreatedByParent(pc - {n})
  {
  }

  lemma JobsByParentSet(t: Tree, pc: Creations, n: TreeNode, cs: seq<Collection>)
    ensures JobsByParent(t, pc[n := cs]) == JobsByParent(t, pc)[n := JobsFor(t, n.Uid(), cs)]
  {
  }

  lemma SetMinus<K, V>(f: map<K, V>, k: K, v: V)
    ensures f[k := v] - {k} == f - {k}
  {
  }

  lemma JobsByParentAdd(t: Tree, pc: Creations, n: TreeNode, c: Collection)
    ensures
      var f := JobsByParent(t, pc);
      var g := JobsByParent(t, pc[n := ListAt(pc, n) + [c]]);
      var x := multiset{CreateJob(t, n.Uid(), c)};
      n in g && g - {n} == f - {n} && g[n] == if n in f then f[n] + x else x
  {
    var cs := ListAt(pc, n);
    JobsForNext(t, n.Uid(), cs, c);
    JobsByParentSet(t, pc, n, cs + [c]);
    SetMinus(JobsByParent(t, pc), n, JobsFor(t, n.Uid(), cs + [c]));
  }

  lemma CreatedByParentAdd(pc: Creations, n: TreeNode, c: Collection)
    ensures var f := CreatedByParent(pc); var g := CreatedByParent(pc[n := ListAt(pc, n) + [c]]); var x := multiset{c};
      n in g && g - {n} == f - {n} && g[n] == if n in f then f[n] + x else x
  {
  }

  /** Putting a collection on the table adds its job. */
  lemma CreationsAdd(t: Tree, pc: Creations, n: TreeNode, c: Collection)
    ensures var pc' := pc[n := ListAt(pc, n) + [c]];
      && Sum(JobsByParent(t, pc')) == Sum(JobsByParent(t, pc)) + multiset{CreateJob(t, n.Uid(), c)}
      && Sum(CreatedByParent(pc')) == Sum(CreatedByParent(pc)) + multiset{c}
  {
    var pc' := pc[n := ListAt(pc, n) + [c]];
    JobsByParentAdd(t, pc, n, c);
    CreatedByParentAdd(pc, n, c);
    SumAdd(JobsByParent(t, pc), JobsByParent(t, pc'), n, multiset{CreateJob(t, n.Uid(), c)});
    SumAdd(CreatedByParent(pc), CreatedByParent(pc'), n, multiset{c});
  }

  ghost function UidOf(n: TreeNode?): Option<Id> {
    if n == null then None else Some(n.Uid())
  }

  class CollectionSync {
    var localRoot: TreeNode
    var localUidMap: map<Id, TreeNode>
    var localRidMap: map<string, TreeNode>
    var localPendingCollections: map<Id, seq<Id>>
    var removedRemoteCollections: seq<Collection>
    var hierarchicalRIDs: bool
    var incremental: bool
    var streaming: bool
    var localListDone: bool
    var deliveryDone: bool
    var pendingJobs: int
    var progress: int
    var totalAmount: int
    // the subjobs in flight, and the result once there is one
    var jobs: multiset<Job>
    var moves: multiset<Move>
    var outcomes: seq<Outcome>
    // what jobs were ever issued for
    ghost var handled: multiset<Collection>
    ghost var deleted: multiset<Collection>
    // every node object of this job
    ghost var nodes: set<TreeNode>

    // ---------------------------------------------------------------- abstraction

    ghost predicate Known(n: TreeNode)
      reads this`localUidMap
    {
      KnownIn(localUidMap, n)
    }

    /** The node objects are linked in order. */
    ghost predicate Valid()
      reads this`nodes, this`localRoot, this`localUidMap, this`localRidMap, this`localPendingCollections
      reads nodes`childNodes, nodes`childRidMap
    {
      Connected(localRoot, localUidMap, localRidMap, localPendingCollections, nodes) && Inside(localUidMap, nodes)
    }

    ghost function TreeView(): Tree
      requires Inside(localUidMap, nodes)
      reads this`hierarchicalRIDs, this`localRidMap, this`localPendingCollections
      reads this`nodes, this`localUidMap, nodes`childNodes, nodes`childRidMap
    {
      Tree(hierarchicalRIDs, NodesOf(localUidMap, nodes), RidsOf(localRidMap), localPendingCollections)
    }

    ghost function WaitingView(): map<Id, seq<Collection>>
      requires Inside(localUidMap, nodes)
      reads this`nodes, this`localUidMap, nodes`pendingRemoteNodes
    {
      WaitingOf(localUidMap, nodes)
    }

    ghost function ProcessedView(): set<Id>
      requires Inside(localUidMap, nodes)
      reads this`nodes, this`localUidMap, nodes`processed
    {
      ProcessedOf(localUidMap, nodes)
    }

    ghost function View(): State
      requires Inside(localUidMap, nodes)
      reads this, nodes
    {
      State(TreeView(), WaitingView(), ProcessedView(), incremental, streaming, localListDone, deliveryDone,
            pendingJobs, progress, totalAmount, removedRemoteCollections, jobs, moves, handled, deleted, outcomes)
    }

    /** Nothing but the root node. */
    ghost predicate Blank()
      reads this, localRoot
    {
      && localRoot.collection == ROOT && localRoot.childNodes == [] && localRoot.childRidMap == map[]
      && localRoot.pendingRemoteNodes == [] && localRoot.processed
      && nodes == {localRoot} && localUidMap == map[ROOT_ID := localRoot] && localRidMap == map["" := localRoot]
      && localPendingCollections == map[] && removedRemoteCollections == []
      && !hierarchicalRIDs && !incremental && !streaming && !localListDone && !deliveryDone
      && pendingJobs == 0 && progress == 0 && totalAmount == 0
      && jobs == multiset{} && moves == multiset{} && outcomes == [] && handled == multiset{} && deleted == multiset{}
    }

    lemma BlankIsInitial()
      requires Blank()
      ensures Valid() && View() == InitialState(false, false)
    {
      assert localRoot.Value() == BLANK.(collection := ROOT) by {
        assert Uids([]) == [] && localRoot.Value().childRidMap == map[];
      }
      assert TreeView().localUidMap == InitialTree(false).localUidMap;
      assert TreeView().localRidMap == InitialTree(false).localRidMap;
      assert WaitingView() == map[];
      assert ProcessedView() == {ROOT_ID};
    }

    constructor ()
      ensures Valid() && View() == InitialState(false, false)
      ensures fresh(nodes)
    {
      localRoot := new TreeNode(ROOT);
      localUidMap, localRidMap, localPendingCollections := map[], map[], map[];
      removedRemoteCollections := [];
      hierarchicalRIDs, incremental, streaming, localListDone, deliveryDone := false, false, false, false, false;
      pendingJobs, progress, totalAmount := 0, 0, 0;
      jobs, moves, outcomes, handled, deleted, nodes := multiset{}, multiset{}, [], multiset{}, multiset{}, {};
      new;
      localRoot.processed := true; // the root is never up for deletion
      nodes, localUidMap := {localRoot}, map[ROOT_ID := localRoot];
      localRidMap := map["" := localRoot];
      BlankIsInitial();
    }

    method setHierarchicalRemoteIds(hierarchical: bool)
      requires Valid()
      modifies this`hierarchicalRIDs
      ensures Valid() && View() == old(View()).(tree := old(TreeView()).(hierarchicalRIDs := hierarchical))
    {
      hierarchicalRIDs := hierarchical;
    }

    method setStreamingEnabled(enabled: bool)
      requires Valid()
      modifies this`streaming
      ensures Valid() && View() == old(View()).(streaming := enabled)
    {
      streaming := enabled;
    }

    // ---------------------------------------------------------------- node updates

    method takeWaiting(n: TreeNode) returns (cs: seq<Collection>)
      requires Valid() && Known(n)
      modifies n`pendingRemoteNodes
      ensures Valid() && View() == SetWaiting(old(View()), n.Uid(), [])
      ensures cs == Waiting(old(View()), n.Uid())
    {
      cs := n.pendingRemoteNodes;
      clearWaiting(n);
    }

    method clearWaiting(n: TreeNode)
      requires Valid() && Known(n)
      modifies n`pendingRemoteNodes
      ensures Valid() && View() == SetWaiting(old(View()), n.Uid(), [])
    {
      n.pendingRemoteNodes := [];
      assert forall x :: x in localUidMap && x != n.Uid() ==> localUidMap[x] != n;
      assert WaitingView() == old(WaitingView()) - {n.Uid()};
      assert TreeView() == old(TreeView()) && ProcessedView() == old(ProcessedView());
    }

    method enqueueWaiting(n: TreeNode, c: Collection)
      requires Valid() && Known(n)
      modifies n`pendingRemoteNodes
      ensures Valid() && View() == SetWaiting(old(View()), n.Uid(), Waiting(old(View()), n.Uid()) + [c])
    {
      n.pendingRemoteNodes := n.pendingRemoteNodes + [c];
      assert forall x :: x in localUidMap && x != n.Uid() ==> localUidMap[x] != n;
      assert WaitingView() == old(WaitingView())[n.Uid() := old(n.pendingRemoteNodes) + [c]];
    }

    method markProcessed(n: TreeNode)
      requires Valid() && Known(n)
      modifies n`processed
      ensures Valid() && View() == MarkProcessed(old(View()), n.Uid())
    {
      n.processed := true;
      assert forall x :: x in localUidMap && x != n.Uid() ==> localUidMap[x] != n;
      assert ProcessedView() == old(ProcessedView()) + {n.Uid()};
    }

    // ---------------------------------------------------------------- matching

    lemma NodeIs(n: TreeNode)
      requires Valid() && Known(n)
      ensures Node(TreeView(), n.Uid()) == n.Value()
    {
    }

    method findLocalChildNodeByName(localParentNode: TreeNode, name: string) returns (n: TreeNode?)
      requires Valid() && Known(localParentNode)
      ensures n != null ==> Known(n)
      ensures UidOf(n) == FindLocalChildNodeByName(TreeView(), localParentNode.Uid(), name)
    {
      if name == "" || localParentNode == localRoot {
        return null;
      }
      ghost var t := TreeView();
      ghost var kids := Uids(localParentNode.childNodes);
      NodeIs(localParentNode);
      assert KnownLinks(localUidMap, localParentNode);
      for i := 0 to |localParentNode.childNodes|
        invariant FirstByName(t, kids, name) == FirstByName(t, kids[i..], name)
      {
        var childNode := localParentNode.childNodes[i];
        NodeIs(childNode);
        if childNode.collection.Name() == name && childNode.collection.Rid() == "" {
          return childNode;
        }
        assert kids[i..][1..] == kids[i + 1..];
      }
      return null;
    }

    method findMatchingLocalNode(collection: Collection) returns (n: TreeNode?)
      requires Valid()
      ensures n != null ==> Known(n)
      ensures UidOf(n) == FindMatchingLocalNode(TreeView(), collection)
      decreases collection
    {
      if !hierarchicalRIDs {
        return if collection.Rid() in localRidMap then localRidMap[collection.Rid()] else null;
      }
      if collection.Uid() == ROOT_ID || collection.Rid() == "" {
        return localRoot;
      }
      if collection.Parent().Uid() < 0 && collection.Parent().Rid() == "" {
        return null;
      }
      var localParent: TreeNode? := localRoot;
      if !(collection.Parent().Uid() == ROOT_ID || collection.Parent().Rid() == "") {
        localParent := findMatchingLocalNode(collection.Parent());
      }
      if localParent == null {
        return null;
      }
      NodeIs(localParent);
      assert KnownLinks(localUidMap, localParent);
      if collection.Rid() in localParent.childRidMap {
        return localParent.childRidMap[collection.Rid()];
      }
      n := findLocalChildNodeByName(localParent, collection.Name());
    }

    method findBestLocalAncestor(collection: Collection) returns (n: TreeNode?, exactMatch: bool)
      requires Valid()
      ensures n != null ==> Known(n)
      ensures Ancestor(UidOf(n), exactMatch) == FindBestLocalAncestor(TreeView(), collection)
      decreases collection
    {
      if !hierarchicalRIDs {
        return localRoot, false;
      }
      if collection.IsRoot() {
        return localRoot, true;
      }
      if collection.Parent().Uid() < 0 && collection.Parent().Rid() == "" {
        return null, false;
      }
      var localParent, parentIsExact := findBestLocalAncestor(collection.Parent());
      if !parentIsExact || localParent == null {
        return localParent, false;
      }
      NodeIs(localParent);
      assert KnownLinks(localUidMap, localParent);
      if collection.Rid() in localParent.childRidMap {
        return localParent.childRidMap[collection.Rid()], true;
      }
      return localParent, false;
    }

    // ---------------------------------------------------------------- the local listing

    /** Files a local collection and hangs it below its parent, or parks it until that comes. */
    method createLocalNode(col: Collection) returns (node: TreeNode)
      requires Valid() && col.Uid() !in localUidMap
      modifies this`nodes, this`localUidMap, this`localRidMap, this`localPendingCollections
      modifies nodes`childNodes, nodes`childRidMap
      ensures Valid() && Known(node) && fresh(node)
      ensures localUidMap == old(localUidMap)[col.Uid() := node]
      ensures nodes == old(nodes) + {node}
      ensures TreeView() == CreateLocalNode(old(TreeView()), col)
      ensures WaitingView() == old(WaitingView()) && ProcessedView() == old(ProcessedView())
    {
      node := enterNode(col);
      attachNode(node);
    }

    /** A new node with the children that arrived before it, filed under its ids. */
    method enterNode(col: Collection) returns (node: TreeNode)
      requires Valid() && col.Uid() !in localUidMap
      modifies this`nodes, this`localUidMap, this`localRidMap, this`localPendingCollections
      ensures Valid() && Known(node) && fresh(node) && node.collection == col
      ensures nodes == old(nodes) + {node} && localUidMap == old(localUidMap)[col.Uid() := node]
      ensures TreeView() == EnterNode(old(TreeView()), col)
      ensures WaitingView() == old(WaitingView()) && ProcessedView() == old(ProcessedView())
    {
      node := new TreeNode(col);
      var x := col.Uid();
      var childIds := if x in localPendingCollections then localPendingCollections[x] else [];
      adoptChildren(node, childIds);
      fileNode(node);
    }

    method fileNode(node: TreeNode)
      requires Valid() && KnownLinks(localUidMap, node) && node !in nodes && node.Uid() !in localUidMap
      requires node.pendingRemoteNodes == [] && !node.processed
      requires node.Value() == AddChildren(TreeView(), LocalNode(node.collection, [], map[]),
          Parked(TreeView(), node.Uid()))
      modifies this`nodes, this`localUidMap, this`localRidMap, this`localPendingCollections
      ensures Valid() && Known(node)
      ensures nodes == old(nodes) + {node} && localUidMap == old(localUidMap)[node.Uid() := node]
      ensures TreeView() == EnterNode(old(TreeView()), node.collection)
      ensures WaitingView() == old(WaitingView()) && ProcessedView() == old(ProcessedView())
    {
      addNode(node);
      fileRid(node);
    }

    method addNode(node: TreeNode)
      requires Valid() && KnownLinks(localUidMap, node) && node !in nodes && node.Uid() !in localUidMap
      requires node.pendingRemoteNodes == [] && !node.processed
      modifies this`nodes, this`localUidMap, this`localPendingCollections
      ensures Valid() && Known(node)
      ensures nodes == old(nodes) + {node} && localUidMap == old(localUidMap)[node.Uid() := node]
      ensures var t := old(TreeView()); var x := node.Uid();
        TreeView() == t.(localUidMap := t.localUidMap[x := node.Value()],
                         localPendingCollections := t.localPendingCollections - {x})
      ensures WaitingView() == old(WaitingView()) && ProcessedView() == old(ProcessedView())
    {
      var x := node.Uid();
      nodes, localUidMap := nodes + {node}, localUidMap[x := node];
      localPendingCollections := localPendingCollections - {x};
      ConnectedGrows(localRoot, old(localUidMap), localRidMap, old(localPendingCollections), old(nodes), node);
      NodeAdded(old(localUidMap), old(nodes), x, node);
    }

    method fileRid(node: TreeNode)
      requires Valid() && Known(node)
      modifies this`localRidMap
      ensures Valid()
      ensures var t := old(TreeView()); var rid := node.collection.Rid();
        TreeView() == t.(localRidMap := if !t.hierarchicalRIDs && rid != "" then t.localRidMap[rid := node.Uid()]
            else t.localRidMap)
    {
      if !hierarchicalRIDs && node.collection.Rid() != "" {
        localRidMap := localRidMap[node.collection.Rid() := node];
        RidAdded(old(localRidMap), node.collection.Rid(), node);
      }
    }

    method attachNode(node: TreeNode)
      requires Valid() && Known(node)
      modifies this`localPendingCollections
      modifies nodes`childNodes, nodes`childRidMap
      ensures Valid()
      ensures TreeView() == AttachNode(old(TreeView()), node.Uid(), node.collection.Parent().Uid(),
          node.collection.Rid())
    {
      var p := node.collection.Parent().Uid();
      if p in localUidMap {
        var parentNode := localUidMap[p];
        NodeIs(parentNode);
        assert KnownLinks(localUidMap, parentNode);
        parentNode.appendChild(node);
        forall x | x in localUidMap ensures KnownLinks(localUidMap, localUidMap[x]) {
          assert old(KnownLinks(localUidMap, localUidMap[x]));
        }
        assert forall x :: x in localUidMap && x != p ==> localUidMap[x] != parentNode;
        assert TreeView().localUidMap == old(TreeView()).localUidMap[p := parentNode.Value()];
      } else {
        var parked := if p in localPendingCollections then localPendingCollections[p] else [];
        localPendingCollections := localPendingCollections[p := parked + [node.Uid()]];
      }
    }

    /** Children that arrived before their parent are its first children. */
    method adoptChildren(node: TreeNode, childIds: seq<Id>)
      requires Valid() && node.childNodes == [] && node.childRidMap == map[] && node !in nodes
      requires forall i :: 0 <= i < |childIds| ==> childIds[i] in localUidMap
      modifies node`childNodes, node`childRidMap
      ensures node.Value() == AddChildren(TreeView(), LocalNode(node.collection, [], map[]), childIds)
      ensures KnownLinks(localUidMap, node)
    {
      ghost var t := TreeView();
      assert node.Value().childRidMap == map[] && Uids([]) == [];
      for i := 0 to |childIds|
        invariant node.Value() == AddChildren(t, LocalNode(node.collection, [], map[]), childIds[..i])
        invariant Valid() && TreeView() == t && KnownLinks(localUidMap, node)
      {
        var childNode := localUidMap[childIds[i]];
        assert childNode.Uid() == childIds[i];
        NodeIs(childNode);
        node.appendChild(childNode);
        assert childIds[..i + 1][..i] == childIds[..i];
      }
      assert childIds[..|childIds|] == childIds;
    }

    method localCollectionsReceived(localCols: seq<Collection>)
      requires Valid() && FreshUids(localUidMap.Keys, localCols)
      modifies this`nodes, this`localUidMap, this`localRidMap, this`localPendingCollections
      modifies nodes`childNodes, nodes`childRidMap
      ensures Valid() && fresh(nodes - old(nodes))
      ensures TreeView() == LocalCollectionsReceived(old(TreeView()), localCols)
      ensures WaitingView() == old(WaitingView()) && ProcessedView() == old(ProcessedView())
    {
      ghost var t := TreeView();
      for i := 0 to |localCols|
        invariant Valid()
        invariant fresh(nodes - old(nodes))
        invariant forall j :: i <= j < |localCols| ==> localCols[j].Uid() !in localUidMap
        invariant TreeView() == LocalCollectionsReceived(t, localCols[..i])
        invariant WaitingView() == old(WaitingView()) && ProcessedView() == old(ProcessedView())
      {
        var node := createLocalNode(localCols[i]);
        assert localCols[..i + 1][..i] == localCols[..i];
      }
      assert localCols[..|localCols|] == localCols;
    }

    // ---------------------------------------------------------------- bookkeeping

    method setJobs(js: multiset<Job>)
      requires Inside(localUidMap, nodes)
      modifies this`jobs
      ensures View() == old(View()).(jobs := js)
    {
      jobs := js;
    }

    method setMoves(ms: multiset<Move>)
      requires Inside(localUidMap, nodes)
      modifies this`moves
      ensures View() == old(View()).(moves := ms)
    {
      moves := ms;
    }

    method noteHandled(ghost cs: multiset<Collection>)
      requires Inside(localUidMap, nodes)
      modifies this`handled
      ensures View() == old(View()).(handled := cs)
    {
      handled := cs;
    }

    method noteDeleted(ghost cs: multiset<Collection>)
      requires Inside(localUidMap, nodes)
      modifies this`deleted
      ensures View() == old(View()).(deleted := cs)
    {
      deleted := cs;
    }

    method countJobs(n: int)
      requires Inside(localUidMap, nodes)
      modifies this`pendingJobs
      ensures View() == old(View()).(pendingJobs := old(View()).pendingJobs + n)
    {
      pendingJobs := pendingJobs + n;
    }

    // ---------------------------------------------------------------- jobs

    /** Remote collections without a remote id are skipped. */
    method createRemoteNode(col: Collection)
      requires Valid()
      modifies localRoot`pendingRemoteNodes
      ensures Valid() && View() == CreateRemoteNode(old(View()), col)
    {
      if col.Rid() != "" {
        enqueueWaiting(localRoot, col);
      }
    }

    method updateLocalCollection(localNode: TreeNode, remote: Collection)
      requires Valid() && Known(localNode)
      modifies this`pendingJobs, this`jobs, this`moves, this`handled, localNode`processed
      ensures Valid() && View() == UpdateLocalCollection(old(View()), localNode.Uid(), remote)
    {
      NodeIs(localNode);
      startUpdate(localNode, remote);
      markProcessed(localNode);
    }

    method startUpdate(localNode: TreeNode, remote: Collection)
      requires Valid() && Known(localNode)
      modifies this`pendingJobs, this`jobs, this`moves, this`handled
      ensures View() == StartUpdate(old(View()), localNode.collection, remote)
    {
      issueModify(localNode, remote);
      // a hierarchical remote id does not tell where a collection was before
      if !hierarchicalRIDs {
        moveIfNeeded(localNode, remote);
      }
    }

    /** The modify job must not move anything, so it keeps the old parent. */
    method issueModify(localNode: TreeNode, remote: Collection)
      requires Valid()
      modifies this`pendingJobs, this`jobs, this`handled
      ensures View() == IssueModify(old(View()), localNode.collection, remote)
    {
      var local := localNode.collection;
      var upd := Updated(local, remote, remote.Parent());
      countJobs(1);
      setJobs(jobs + multiset{Modify(upd.(parent := local.Parent()))});
      noteHandled(handled + multiset{remote});
    }

    method moveIfNeeded(localNode: TreeNode, remote: Collection)
      requires Valid() && Known(localNode)
      modifies this`pendingJobs, this`moves
      ensures View() == MoveIfNeeded(old(View()), localNode.collection, remote)
    {
      var newParent := findMatchingLocalNode(remote.Parent());
      moveTo(localNode, remote, newParent);
    }

    method moveTo(localNode: TreeNode, remote: Collection, newParent: TreeNode?)
      requires Valid() && Known(localNode) && (newParent != null ==> Known(newParent))
      modifies this`pendingJobs, this`moves
      ensures View() == MoveTo(old(View()), localNode.collection, remote, UidOf(newParent))
    {
      var p := localNode.collection.Parent().Uid();
      var oldParent := if p in localUidMap then localUidMap[p] else null;
      if newParent != null && oldParent != newParent {
        NodeIs(newParent);
        countJobs(1);
        setMoves(moves + multiset{Move(Updated(localNode.collection, remote, remote.Parent()), newParent.collection)});
      }
    }

    method createLocalCollections(localParent: TreeNode, remotes: seq<Collection>)
      requires Valid() && Known(localParent)
      modifies this`pendingJobs, this`jobs, this`handled
      ensures Valid() && View() == IssueList(old(View()), localParent.Uid(), remotes)
    {
      ghost var s := View();
      for i := 0 to |remotes|
        invariant Valid() && View() == IssueList(s, localParent.Uid(), remotes[..i])
      {
        IssueListNext(s, localParent.Uid(), remotes, i);
        issueCreate(localParent, remotes[i]);
      }
      assert remotes[..|remotes|] == remotes;
    }

    method issueCreate(localParent: TreeNode, remote: Collection)
      requires Valid() && Known(localParent)
      modifies this`pendingJobs, this`jobs, this`handled
      ensures Valid() && View() == IssueOne(old(View()), localParent.Uid(), remote)
    {
      NodeIs(localParent);
      var col := Collection(remote.Uid(), remote.Rid(), remote.Name(), remote.Display(), localParent.collection);
      countJobs(1);
      setJobs(jobs + multiset{Create(localParent.Uid(), remote, col)});
      noteHandled(handled + multiset{remote});
    }

    // ---------------------------------------------------------------- waiting nodes

    /** Re-examines the remote nodes waiting at a local node. */
    method processPendingRemoteNodes(node: TreeNode)
      requires Valid() && Known(node)
      modifies this`pendingJobs, this`jobs, this`moves, this`handled, this`outcomes
      modifies nodes`pendingRemoteNodes, nodes`processed
      ensures Valid() && View() == ProcessPendingRemoteNodes(old(View()), node.Uid())
    {
      ghost var s := View();
      var remotes := takeWaiting(node);
      var pendingCreations, aborted := sweep(remotes);
      PassIs(s, node.Uid(), View(), pendingCreations, aborted);
      if !aborted {
        issueCreations(pendingCreations);
      }
    }

    method sweep(remotes: seq<Collection>) returns (pendingCreations: Creations, aborted: bool)
      requires Valid()
      modifies this`pendingJobs, this`jobs, this`moves, this`handled, this`outcomes
      modifies nodes`pendingRemoteNodes, nodes`processed
      ensures Valid() && Swept(SweepAll(old(View()), remotes), View(), TreeView(), pendingCreations, aborted)
      ensures forall n :: n in pendingCreations ==> Known(n)
    {
      ghost var s := View();
      pendingCreations, aborted := map[], false;
      NothingSwept(s, remotes);
      var i := 0;
      while i < |remotes| && !aborted
        invariant i <= |remotes|
        invariant Valid() && Swept(SweepAll(s, remotes[..i]), View(), TreeView(), pendingCreations, aborted)
        invariant forall n :: n in pendingCreations ==> Known(n)
      {
        PrefixNext(remotes, i);
        pendingCreations, aborted := sweepNext(s, remotes[..i], remotes[i], pendingCreations);
        i := i + 1;
      }
      AllSwept(s, remotes, i);
    }

    method sweepNext(ghost s: State, ghost done: seq<Collection>, remote: Collection, pc: Creations)
            returns (pendingCreations: Creations, aborted: bool)
      requires Valid() && Swept(SweepAll(s, done), View(), TreeView(), pc, false)
      requires forall n :: n in pc ==> Known(n)
      modifies this`pendingJobs, this`jobs, this`moves, this`handled, this`outcomes
      modifies nodes`pendingRemoteNodes, nodes`processed
      ensures Valid() && Swept(SweepAll(s, done + [remote]), View(), TreeView(), pendingCreations, aborted)
      ensures forall n :: n in pendingCreations ==> Known(n)
    {
      SweepNext(s, done, remote);
      pendingCreations, aborted := sweepOne(SweepAll(s, done), remote, pc);
    }

    method sweepOne(ghost w: Sweep, remote: Collection, pc: Creations)
        returns (pendingCreations: Creations, aborted: bool)
      requires Valid() && Swept(w, View(), TreeView(), pc, false)
      requires forall n :: n in pc ==> Known(n)
      modifies this`pendingJobs, this`jobs, this`moves, this`handled, this`outcomes
      modifies nodes`pendingRemoteNodes, nodes`processed
      ensures Valid() && Swept(ProcessOne(w, remote), View(), TreeView(), pendingCreations, aborted)
      ensures forall n :: n in pendingCreations ==> Known(n)
    {
      pendingCreations, aborted := pc, false;
      // a node that is there already is updated
      var localNode := findMatchingLocalNode(remote);
      if localNode != null {
        sweepMatched(w, localNode, remote, pc);
        return;
      }
      pendingCreations, aborted := sweepUnmatched(w, remote, pc);
    }

    method sweepUnmatched(ghost w: Sweep, remote: Collection, pc: Creations)
        returns (pendingCreations: Creations, aborted: bool)
      requires Valid() && Swept(w, View(), TreeView(), pc, false)
      requires forall n :: n in pc ==> Known(n)
      modifies this`outcomes, nodes`pendingRemoteNodes
      ensures Valid() && Swept(Unmatched(w, remote), View(), TreeView(), pendingCreations, aborted)
      ensures forall n :: n in pendingCreations ==> Known(n)
    {
      pendingCreations, aborted := pc, false;
      // with its parent there it can be created
      var localNode := findMatchingLocalNode(remote.Parent());
      if localNode != null {
        CreatableSwept(w, View(), localNode, remote, pc);
        pendingCreations := pc[localNode := ListAt(pc, localNode) + [remote]];
        return;
      }
      // otherwise it has to wait, as far down as the tree reaches
      var best, exact := findBestLocalAncestor(remote);
      aborted := sweepPremature(w, best, remote, pc);
    }

    method sweepMatched(ghost w: Sweep, localNode: TreeNode, remote: Collection, ghost pc: Creations)
      requires Valid() && Swept(w, View(), TreeView(), pc, false) && Known(localNode)
      modifies this`pendingJobs, this`jobs, this`moves, this`handled, nodes`processed
      ensures Valid() && Swept(ProcessMatched(w, localNode.Uid(), remote), View(), TreeView(), pc, false)
    {
      ghost var s := View();
      updateLocalCollection(localNode, remote);
      UpdateKeeps(s, localNode.Uid(), remote);
      StateSwept(w, s, View(), pc, false);
    }

    method sweepPremature(ghost w: Sweep, best: TreeNode?, remote: Collection, ghost pc: Creations)
            returns (aborted: bool)
      requires Valid() && Swept(w, View(), TreeView(), pc, false) && (best != null ==> Known(best))
      modifies this`outcomes, nodes`pendingRemoteNodes
      ensures Valid() && Swept(ProcessPremature(w, UidOf(best), remote), View(), TreeView(), pc, aborted)
    {
      ghost var s := View();
      if best == null {
        emitResult(BrokenAncestorChain);
        aborted := true;
      } else {
        enqueueWaiting(best, remote);
        aborted := false;
      }
      StateSwept(w, s, View(), pc, aborted);
    }

    /** The parents may come in any order. */
    method issueCreations(pendingCreations: Creations)
      requires Valid() && forall n :: n in pendingCreations ==> Known(n)
      modifies this`pendingJobs, this`jobs, this`handled
      ensures Valid() && View() == IssueTable(old(View()), pendingCreations)
    {
      ghost var s := View();
      var left := pendingCreations;
      while left.Keys != {}
        invariant Valid() && left.Keys <= pendingCreations.Keys
        invariant IssueTable(View(), left) == IssueTable(s, pendingCreations)
        decreases left.Keys
      {
        var n :| n in left;
        TableTake(View(), left, n);
        createLocalCollections(n, left[n]);
        left := left - {n};
      }
      TableNone(View(), left);
    }

    // ---------------------------------------------------------------- deletion

    /** The children of a node are known, and nearer to the leaves. */
    lemma ChildrenKnown(n: TreeNode)
      requires Valid() && Known(n) && Linked(TreeView())
      ensures TreeView().localUidMap[n.Uid()].childNodes == Uids(n.childNodes)
      ensures AllChildren(TreeView(), Uids(n.childNodes), n.Uid())
      ensures forall i :: 0 <= i < |n.childNodes| ==>
          Known(n.childNodes[i]) && Room(TreeView(), n.childNodes[i].Uid()) < Room(TreeView(), n.Uid())
    {
      ListedAreChildren(TreeView(), n.Uid());
      assert KnownLinks(localUidMap, n);
      forall i | 0 <= i < |n.childNodes| ensures Room(TreeView(), n.childNodes[i].Uid()) < Room(TreeView(), n.Uid()) {
        assert Uids(n.childNodes)[i] == n.childNodes[i].Uid();
        ChildStep(TreeView(), n.childNodes[i].Uid(), n.Uid());
      }
    }

    /** Some node at or below the given one is processed. */
    method hasProcessedChildren(localNode: TreeNode) returns (found: bool)
      requires Valid() && Known(localNode) && Linked(TreeView())
      ensures found == HasProcessedChildren(TreeView(), ProcessedView(), localNode.Uid())
      decreases Room(TreeView(), localNode.Uid())
    {
      if localNode.processed {
        return true;
      }
      ghost var t := TreeView();
      ghost var x := localNode.Uid();
      ghost var kids := Uids(localNode.childNodes);
      ChildrenKnown(localNode);
      for i := 0 to |localNode.childNodes|
        invariant AllChildren(t, kids[i..], x)
        invariant AnyProcessed(t, ProcessedView(), kids[i..], x) == AnyProcessed(t, ProcessedView(), kids, x)
      {
        assert kids[i..][0] == kids[i] && kids[i..][1..] == kids[i + 1..];
        var childFound := hasProcessedChildren(localNode.childNodes[i]);
        if childFound {
          return true;
        }
      }
      return false;
    }

    /** The topmost unprocessed nodes with a remote id and no processed node below them. */
    method findUnprocessedLocalCollections(localNode: TreeNode) returns (rv: seq<Collection>)
      requires Valid() && Known(localNode) && Linked(TreeView())
      ensures rv == FindUnprocessedLocalCollections(TreeView(), ProcessedView(), localNode.Uid())
      decreases Room(TreeView(), localNode.Uid())
    {
      if !localNode.processed {
        var hasProcessed := hasProcessedChildren(localNode);
        return if hasProcessed || localNode.collection.Rid() == "" then [] else [localNode.collection];
      }
      ghost var t, ps := TreeView(), ProcessedView();
      ghost var x := localNode.Uid();
      ghost var kids := Uids(localNode.childNodes);
      ChildrenKnown(localNode);
      rv := [];
      NothingSearched(t, ps, x, kids);
      for i := 0 to |localNode.childNodes|
        invariant Searched(t, ps, x, kids, i, rv)
      {
        var childRv := findUnprocessedLocalCollections(localNode.childNodes[i]);
        SearchedNext(t, ps, x, kids, i, rv, childRv);
        rv := rv + childRv;
      }
      AllSearched(t, ps, x, kids, rv);
    }

    method deleteUnprocessedLocalNodes()
      requires Valid() && Linked(TreeView()) && ROOT_ID in ProcessedView()
      modifies this`totalAmount, this`pendingJobs, this`jobs, this`deleted
      ensures Valid() && View() == DeleteUnprocessedLocalNodes(old(View()))
    {
      if incremental {
        return;
      }
      ghost var s := View();
      var cols := findUnprocessedLocalCollections(localRoot);
      DeletesUnprocessed(s, cols);
      deleteLocalCollections(cols);
    }

    method deleteLocalCollections(cols: seq<Collection>)
      requires Valid()
      modifies this`totalAmount, this`pendingJobs, this`jobs, this`deleted
      ensures Valid() && View() == DeleteLocalCollections(old(View()), cols)
    {
      addToTotal(|cols|);
      issueDeletes(cols);
    }

    method addToTotal(amount: int)
      requires Valid()
      modifies this`totalAmount
      ensures Valid() && View() == Expecting(old(View()), amount)
    {
      totalAmount := totalAmount + amount;
    }

    method issueDeletes(cols: seq<Collection>)
      requires Valid()
      modifies this`pendingJobs, this`jobs, this`deleted
      ensures Valid() && View() == IssueDeletes(old(View()), cols)
    {
      ghost var s := View();
      for i := 0 to |cols|
        invariant Valid() && View() == IssueDeletes(s, cols[..i])
      {
        assert cols[..i + 1][..i] == cols[..i];
        issueDelete(cols[i]);
      }
      assert cols[..|cols|] == cols;
    }

    method issueDelete(col: Collection)
      requires Valid()
      modifies this`pendingJobs, this`jobs, this`deleted
      ensures Valid() && View() == IssueDelete(old(View()), col)
    {
      countJobs(1);
      setJobs(jobs + multiset{Delete(col)});
      noteDeleted(deleted + multiset{col});
    }

    // ---------------------------------------------------------------- orphans and the end

    /** The remote nodes still waiting at or below a node. */
    method findPendingRemoteNodes(localNode: TreeNode) returns (rv: seq<Collection>)
      requires Valid() && Known(localNode) && Linked(TreeView())
      ensures FoundBelow(TreeView(), WaitingView(), localNode.Uid(), rv)
      decreases Room(TreeView(), localNode.Uid())
    {
      ghost var t, w := TreeView(), WaitingView();
      ghost var x := localNode.Uid();
      ghost var kids := Uids(localNode.childNodes);
      ChildrenKnown(localNode);
      rv := localNode.pendingRemoteNodes;
      FoundAtFirst(t, w, x, kids, rv);
      for i := 0 to |localNode.childNodes|
        invariant FoundUpTo(t, w, x, kids, i, rv)
      {
        var childRv := findPendingRemoteNodes(localNode.childNodes[i]);
        FoundNext(t, w, x, kids, i, rv, childRv);
        rv := rv + childRv;
      }
      FoundAll(t, w, x, kids, rv);
    }

    method emitResult(outcome: Outcome)
      requires Valid()
      modifies this`outcomes
      ensures Valid() && View() == old(View()).(outcomes := old(View()).outcomes + [outcome])
    {
      outcomes := outcomes + [outcome];
    }

    /** Commits unless a remote node still waits somewhere. */
    method checkDone()
      requires Valid() && ReadyState(View())
      modifies this`outcomes
      ensures Valid() && View() == CheckDone(old(View()))
    {
      if !deliveryDone || pendingJobs > 0 || !localListDone {
        return;
      }
      var orphans := findPendingRemoteNodes(localRoot);
      OrphansBelowRoot(View(), orphans);
      emitResult(if orphans != [] then UnresolvedOrphans else Committed);
    }

    /** Deletes what an incremental listing reported as removed. */
    method deleteRemoved()
      requires Valid()
      modifies this`totalAmount, this`pendingJobs, this`jobs, this`deleted, this`removedRemoteCollections
      ensures Valid() && View() == DeleteRemoved(old(View()))
    {
      var cols := removedRemoteCollections;
      if hierarchicalRIDs {
        cols := matchingLocals(removedRemoteCollections);
      }
      deleteLocalCollections(cols);
      clearRemoved();
    }

    method clearRemoved()
      requires Valid()
      modifies this`removedRemoteCollections
      ensures Valid() && View() == old(View()).(removedRemoteCollections := [])
    {
      removedRemoteCollections := [];
    }

    method matchingLocals(cols: seq<Collection>) returns (localCols: seq<Collection>)
      requires Valid()
      ensures localCols == MatchingLocals(TreeView(), cols)
    {
      localCols := [];
      for i := 0 to |cols|
        invariant localCols == MatchingLocals(TreeView(), cols[..i])
      {
        assert cols[..i + 1][..i] == cols[..i];
        var node := findMatchingLocalNode(cols[i]);
        if node != null {
          NodeIs(node);
          localCols := localCols + [node.collection];
        }
      }
      assert cols[..|cols|] == cols;
    }

    /** Processes what is currently available. */
    method execute()
      requires Valid() && ReadyState(View())
      modifies this`pendingJobs, this`jobs, this`moves, this`handled, this`outcomes
      modifies this`totalAmount, this`deleted, this`removedRemoteCollections
      modifies nodes`pendingRemoteNodes, nodes`processed
      ensures Valid() && View() == Execute(old(View()))
    {
      if !localListDone {
        return;
      }
      ghost var s := View();
      processPendingRemoteNodes(localRoot);
      PassReady(s, ROOT_ID);
      deleteAll();
      DeletesReady(ProcessPendingRemoteNodes(s, ROOT_ID));
      checkDone();
    }

    method deleteAll()
      requires Valid() && ReadyState(View()) && localListDone
      modifies this`totalAmount, this`pendingJobs, this`jobs, this`deleted, this`removedRemoteCollections
      ensures Valid()
      ensures View() == DeleteRemoved(if old(deliveryDone) then DeleteUnprocessedLocalNodes(old(View()))
          else old(View()))
    {
      if !incremental && deliveryDone {
        deleteUnprocessedLocalNodes();
      }
      deleteRemoved();
    }

    // ---------------------------------------------------------------- results of jobs

    /** A modify job finished. */
    method updateLocalCollectionResult(job: Job)
      requires Valid() && ReadyState(View()) && job in jobs && !job.Create?
      modifies this`jobs, this`pendingJobs, this`progress, this`outcomes
      ensures Valid() && View() == JobDone(old(View()), job)
    {
      countResult(job);
      checkDone();
    }

    /** A delete job finished, successfully or not. */
    method deleteLocalCollectionsResult(job: Job)
      requires Valid() && ReadyState(View()) && job in jobs && job.Delete?
      modifies this`jobs, this`pendingJobs, this`progress, this`outcomes
      ensures Valid() && View() == JobDone(old(View()), job)
    {
      countResult(job);
      checkDone();
    }

    method countResult(job: Job)
      requires Valid()
      modifies this`jobs, this`pendingJobs, this`progress
      ensures Valid()
      ensures var s := old(View());
        View() == s.(jobs := s.jobs - multiset{job}, pendingJobs := s.pendingJobs - 1, progress := s.progress + 1)
    {
      countJobs(-1);
      countProgress();
      setJobs(jobs - multiset{job});
    }

    method countProgress()
      requires Valid()
      modifies this`progress
      ensures Valid() && View() == old(View()).(progress := old(View()).progress + 1)
    {
      progress := progress + 1;
    }

    /** A move job finished; it does not count as progress. */
    method moveResult(move: Move)
      requires Valid() && ReadyState(View()) && move in moves
      modifies this`moves, this`pendingJobs, this`outcomes
      ensures Valid() && View() == MoveDone(old(View()), move)
    {
      countMove(move);
      checkDone();
    }

    method countMove(move: Move)
      requires Valid()
      modifies this`moves, this`pendingJobs
      ensures Valid()
      ensures var s := old(View()); View() == s.(moves := s.moves - multiset{move}, pendingJobs := s.pendingJobs - 1)
    {
      countJobs(-1);
      setMoves(moves - multiset{move});
    }

    /** A create job finished: the new collection joins the tree, and what waited for it is
        re-examined. */
    method createLocalCollectionResult(job: Job, newId: Id)
      requires Valid() && localListDone && Linked(TreeView()) && localPendingCollections == map[]
          && ROOT_ID in ProcessedView()
      requires job in jobs && job.Create? && newId !in localUidMap
      requires job.localParent in localUidMap && job.col.Parent().Uid() == job.localParent
      modifies this, nodes
      ensures Valid() && fresh(nodes - old(nodes))
      ensures View() == CreateDone(old(View()), job, newId)
    {
      ghost var s := View();
      recordCreated(job, newId);
      ghost var r := CreateRecorded(s, job, newId);
      LinkedLeaf(s.tree, NewLocal(job, newId));
      var localParent := localUidMap[job.localParent];
      processPendingRemoteNodes(localParent);
      PassReady(r, job.localParent);
      if !hierarchicalRIDs {
        processPendingRemoteNodes(localRoot);
        PassReady(ProcessPendingRemoteNodes(r, job.localParent), ROOT_ID);
      }
      checkDone();
    }

    method recordCreated(job: Job, newId: Id)
      requires Valid() && job.Create? && newId !in localUidMap && job.localParent in localUidMap
      modifies this, nodes`childNodes, nodes`childRidMap
      ensures Valid() && fresh(nodes - old(nodes)) && job.localParent in localUidMap
      ensures View() == CreateRecorded(old(View()), job, newId)
    {
      countResult(job);
      var newLocal := Collection(newId, job.col.Rid(), job.col.Name(), job.col.Display(), job.col.Parent());
      addProcessed(newLocal);
    }

    method addProcessed(newLocal: Collection)
      requires Valid() && newLocal.Uid() !in localUidMap
      modifies this`nodes, this`localUidMap, this`localRidMap, this`localPendingCollections
      modifies nodes`childNodes, nodes`childRidMap
      ensures Valid() && fresh(nodes - old(nodes)) && old(localUidMap).Keys <= localUidMap.Keys
      ensures var s := old(View());
        View() == s.(tree := CreateLocalNode(s.tree, newLocal), processed := s.processed + {newLocal.Uid()})
    {
      var localNode := createLocalNode(newLocal);
      ghost var s := View();
      assert s == old(View()).(tree := CreateLocalNode(old(TreeView()), newLocal));
      markProcessed(localNode);
    }

    // ---------------------------------------------------------------- deliveries

    method localCollectionFetchResult()
      requires Valid() && !localListDone && ROOT_ID in ProcessedView()
      requires localPendingCollections == map[] ==> Linked(TreeView())
      modifies this, nodes`pendingRemoteNodes, nodes`processed
      ensures Valid() && View() == LocalFetchResult(old(View()))
    {
      // parents that never came leave their children parked
      if localPendingCollections != map[] {
        emitResult(InconsistentLocalTree);
        return;
      }
      finishListing();
      execute();
    }

    method finishListing()
      requires Valid()
      modifies this`localListDone
      ensures Valid() && View() == old(View()).(localListDone := true)
    {
      localListDone := true;
    }

    method finishDelivery()
      requires Valid()
      modifies this`deliveryDone
      ensures Valid() && View() == old(View()).(deliveryDone := true)
    {
      deliveryDone := true;
    }

    method createRemoteNodes(cols: seq<Collection>)
      requires Valid()
      modifies localRoot`pendingRemoteNodes
      ensures Valid() && View() == CreateRemoteNodes(old(View()), cols)
    {
      ghost var s := View();
      for i := 0 to |cols|
        invariant Valid() && View() == CreateRemoteNodes(s, cols[..i])
      {
        assert cols[..i + 1][..i] == cols[..i];
        createRemoteNode(cols[i]);
      }
      assert cols[..|cols|] == cols;
    }

    /** Without streaming, one delivery is all there is. */
    method executeDelivered()
      requires Valid() && ReadyState(View())
      modifies this, nodes`pendingRemoteNodes, nodes`processed
      ensures Valid()
      ensures View() == Execute(if old(streaming) then old(View()) else old(View()).(deliveryDone := true))
    {
      if !streaming {
        finishDelivery();
      }
      execute();
    }

    method fileAndExecute(cols: seq<Collection>)
      requires Valid() && ReadyState(View())
      modifies this, nodes`pendingRemoteNodes, nodes`processed
      ensures Valid() && View() == Delivered(old(View()), cols)
    {
      ghost var s := View();
      createRemoteNodes(cols);
      FilingReady(s, cols);
      FilingKeeps(s, cols);
      executeDelivered();
    }

    /** A full listing, or a chunk of it. */
    method setRemoteCollections(remoteCollections: seq<Collection>)
      requires Valid() && ReadyState(View())
      modifies this, nodes`pendingRemoteNodes, nodes`processed
      ensures Valid() && View() == SetRemoteCollections(old(View()), remoteCollections)
    {
      ghost var s := View();
      addToTotal(|remoteCollections|);
      fileAndExecute(remoteCollections);
      CollectionsExecuted(s, remoteCollections);
    }

    /** An incremental listing, or a chunk of it. */
    method setRemoteChanges(changedCollections: seq<Collection>, removedCollections: seq<Collection>)
      requires Valid() && ReadyState(View())
      modifies this, nodes`pendingRemoteNodes, nodes`processed
      ensures Valid() && View() == SetRemoteChanges(old(View()), changedCollections, removedCollections)
    {
      ghost var s := View();
      receiveChanges(changedCollections, removedCollections);
      ghost var s2 := View();
      executeDelivered();
      ChangesExecuted(s, changedCollections, removedCollections, s2, View());
    }

    method receiveChanges(changedCollections: seq<Collection>, removedCollections: seq<Collection>)
      requires Valid() && ReadyState(View())
      modifies localRoot`pendingRemoteNodes, this`removedRemoteCollections, this`totalAmount, this`incremental
      ensures Valid() && ReadyState(View())
      ensures View() == FiledChanges(Announced(old(View()), |changedCollections|), changedCollections,
          removedCollections)
    {
      startChanges(|changedCollections|);
      ghost var s := View();
      createRemoteNodes(changedCollections);
      FilingReady(s, changedCollections);
      noteRemoved(removedCollections);
    }

    method startChanges(amount: int)
      requires Valid()
      modifies this`totalAmount, this`incremental
      ensures Valid() && View() == Announced(old(View()), amount)
    {
      totalAmount := totalAmount + amount;
      incremental := true;
    }

    method noteRemoved(removedCollections: seq<Collection>)
      requires Valid()
      modifies this`removedRemoteCollections
      ensures Valid()
      ensures var s := old(View());
        View() == s.(removedRemoteCollections := s.removedRemoteCollections + removedCollections)
    {
      removedRemoteCollections := removedRemoteCollections + removedCollections;
    }

    method retrievalDone()
      requires Valid() && ReadyState(View())
      modifies this, nodes`pendingRemoteNodes, nodes`processed
      ensures Valid() && View() == RetrievalDone(old(View()))
    {
      finishDelivery();
      execute();
    }
  }

  /** What the search finds is this and what it finds below the children from the n-th on. */
  ghost predicate Searched(t: Tree, ps: set<Id>, x: Id, kids: seq<Id>, n: nat, found: seq<Collection>) {
    && n <= |kids| && Linked(t) && x in t.localUidMap && AllChildren(t, kids, x) && AllChildren(t, kids[n..], x)
    && found + FindAllUnprocessed(t, ps, kids[n..], x) == FindAllUnprocessed(t, ps, kids, x)
  }

  lemma NothingSearched(t: Tree, ps: set<Id>, x: Id, kids: seq<Id>)
    requires Linked(t) && x in t.localUidMap && AllChildren(t, kids, x)
    ensures Searched(t, ps, x, kids, 0, [])
  {
    assert kids[0..] == kids;
  }

  lemma SearchedNext(t: Tree, ps: set<Id>, x: Id, kids: seq<Id>, n: nat, found: seq<Collection>, more: seq<Collection>)
    requires n < |kids| && Searched(t, ps, x, kids, n, found) && kids[n] in t.localUidMap
    requires more == FindUnprocessedLocalCollections(t, ps, kids[n])
    ensures Searched(t, ps, x, kids, n + 1, found + more)
  {
    assert kids[n..][0] == kids[n] && kids[n..][1..] == kids[n + 1..];
    assert forall k :: k in kids[n + 1..] ==> k in kids[n..];
  }

  lemma AllSearched(t: Tree, ps: set<Id>, x: Id, kids: seq<Id>, found: seq<Collection>)
    requires Searched(t, ps, x, kids, |kids|, found)
    ensures found == FindAllUnprocessed(t, ps, kids, x)
  {
    assert kids[|kids|..] == [];
  }

  function Expecting(s: State, amount: int): State {
    s.(totalAmount := s.totalAmount + amount)
  }

  ghost function Delivered(s: State, cols: seq<Collection>): State {
    var s1 := CreateRemoteNodes(s, cols);
    Execute(if s.streaming then s1 else s1.(deliveryDone := true))
  }

  lemma CollectionsExecuted(s: State, cols: seq<Collection>)
    ensures SetRemoteCollections(s, cols) == Delivered(Expecting(s, |cols|), cols)
  {
  }

  function Announced(s: State, amount: int): State {
    s.(totalAmount := s.totalAmount + amount, incremental := true)
  }

  function FiledChanges(s: State, changed: seq<Collection>, removed: seq<Collection>): State {
    var s1 := CreateRemoteNodes(s, changed);
    s1.(removedRemoteCollections := s1.removedRemoteCollections + removed)
  }

  lemma ChangesExecuted(s: State, changed: seq<Collection>, removed: seq<Collection>, s2: State, s': State)
    requires s2 == FiledChanges(Announced(s, |changed|), changed, removed)
    requires s' == Execute(if s2.streaming then s2 else s2.(deliveryDone := true))
    ensures s' == SetRemoteChanges(s, changed, removed)
  {
    FilingKeeps(Announced(s, |changed|), changed);
  }

  lemma {:induction false} FilingKeeps(s: State, cols: seq<Collection>)
    ensures CreateRemoteNodes(s, cols).streaming == s.streaming
  {
    if cols != [] {
      FilingKeeps(s, cols[..|cols| - 1]);
    }
  }

  lemma {:induction false} FilingReady(s: State, cols: seq<Collection>)
    requires ReadyState(s)
    ensures ReadyState(CreateRemoteNodes(s, cols)) && Keeps(s, CreateRemoteNodes(s, cols))
  {
    if cols != [] {
      FilingReady(s, cols[..|cols| - 1]);
    }
  }

  /** A new collection below a known parent keeps the tree connected. */
  lemma LinkedLeaf(t: Tree, col: Collection)
    requires Linked(t) && t.localPendingCollections == map[]
    requires col.Collection? && col.id !in t.localUidMap && col.Parent().Uid() in t.localUidMap
    ensures Linked(CreateLocalNode(t, col))
  {
    var t' := CreateLocalNode(t, col);
    CreateLocalNodeIs(t, col);
    CreateExtends(t, col);
    LeafChildren(t, col);
    LeafParents(t, col);
    RootedLeaf(LocalParents(t), LocalParents(t'), col.id, col.Parent().Uid());
  }

  lemma LeafParents(t: Tree, col: Collection)
    requires NodesOk(t.localUidMap) && IsNew(t, col)
    ensures LocalParents(CreateLocalNode(t, col)) == LocalParents(t)[col.id := col.Parent().Uid()]
  {
    CreateLocalNodeIs(t, col);
  }

  lemma LeafChildren(t: Tree, col: Collection)
    requires Linked(t) && t.localPendingCollections == map[]
    requires col.Collection? && col.id !in t.localUidMap && col.Parent().Uid() in t.localUidMap
    ensures ChildrenOk(CreateLocalNode(t, col).localUidMap)
  {
    var m := t.localUidMap;
    var m' := CreateLocalNode(t, col).localUidMap;
    CreateLocalNodeIs(t, col);
    CreateExtends(t, col);
    forall p | p in m' ensures ListsChildren(m', p, m'[p].childNodes) {
      if p != col.id {
        assert ListsChildren(m, p, m[p].childNodes);
        ListsExtend(m, m', col.id, col.Parent().Uid(), p, m[p].childNodes);
      } else {
        forall y ensures !ChildOf(m', y, p) {
          if ChildOf(m, y, p) {
            ChildStep(t, y, p);
          }
        }
      }
    }
  }

  /** From the moment the local listing is done the tree is connected. */
  ghost predicate ReadyState(s: State) {
    s.localListDone ==> Linked(s.tree) && ROOT_ID in s.processed
  }

  lemma PassReady(s: State, n: Id)
    requires ReadyState(s)
    ensures ReadyState(ProcessPendingRemoteNodes(s, n))
    ensures var s' := ProcessPendingRemoteNodes(s, n); s'.localListDone == s.localListDone && s'.tree == s.tree
  {
    SweepKeeps(SetWaiting(s, n, []), Waiting(s, n));
  }

  lemma DeletesReady(s: State)
    requires ReadyState(s)
    ensures ReadyState(DeleteRemoved(s)) && ReadyState(DeleteRemoved(DeleteUnprocessedLocalNodes(s)))
  {
    RemovedReady(s);
    RemovedReady(DeleteUnprocessedLocalNodes(s));
  }

  lemma RemovedReady(s: State)
    requires ReadyState(s)
    ensures ReadyState(DeleteRemoved(s))
  {
    var cols := if s.tree.hierarchicalRIDs then MatchingLocals(s.tree, s.removedRemoteCollections)
        else s.removedRemoteCollections;
    DeletesKeep(Expecting(s, |cols|), cols);
  }

  function WaitingIn(w: map<Id, seq<Collection>>, x: Id): seq<Collection> {
    if x in w then w[x] else []
  }

  /** The remote node waits at x or below it. */
  ghost predicate WaitsBelow(t: Tree, w: map<Id, seq<Collection>>, x: Id, c: Collection) {
    exists y :: y in t.localUidMap && Below(t, y, x) && c in WaitingIn(w, y)
  }

  /** Exactly the remote nodes that wait at x or below it were found. */
  ghost predicate FoundBelow(t: Tree, w: map<Id, seq<Collection>>, x: Id, found: seq<Collection>) {
    forall c :: c in found <==> WaitsBelow(t, w, x, c)
  }

  /** What waits at x, and at or below its first n children. */
  ghost predicate FoundUpTo(t: Tree, w: map<Id, seq<Collection>>, x: Id, kids: seq<Id>, n: nat, found: seq<Collection>)
    requires n <= |kids|
  {
    forall c :: c in found <==> c in WaitingIn(w, x) || exists k :: k in kids[..n] && WaitsBelow(t, w, k, c)
  }

  lemma FoundAtFirst(t: Tree, w: map<Id, seq<Collection>>, x: Id, kids: seq<Id>, found: seq<Collection>)
    requires found == WaitingIn(w, x)
    ensures FoundUpTo(t, w, x, kids, 0, found)
  {
  }

  lemma FoundNext(t: Tree, w: map<Id, seq<Collection>>, x: Id, kids: seq<Id>, n: nat,
      found: seq<Collection>, more: seq<Collection>)
    requires n < |kids| && FoundUpTo(t, w, x, kids, n, found)
    requires FoundBelow(t, w, kids[n], more)
    ensures FoundUpTo(t, w, x, kids, n + 1, found + more)
  {
    PrefixNext(kids, n);
  }

  lemma FoundAll(t: Tree, w: map<Id, seq<Collection>>, x: Id, kids: seq<Id>, found: seq<Collection>)
    requires Linked(t) && x in t.localUidMap && kids == t.localUidMap[x].childNodes
    requires FoundUpTo(t, w, x, kids, |kids|, found)
    ensures FoundBelow(t, w, x, found)
  {
    assert kids[..|kids|] == kids;
    forall c ensures c in found <==> WaitsBelow(t, w, x, c) {
      WaitsBelowStep(t, w, x, kids, c);
    }
  }

  /** What waits below x waits at x or below one of its children. */
  lemma WaitsBelowStep(t: Tree, w: map<Id, seq<Collection>>, x: Id, kids: seq<Id>, c: Collection)
    requires Linked(t) && x in t.localUidMap && kids == t.localUidMap[x].childNodes
    ensures WaitsBelow(t, w, x, c) <==> c in WaitingIn(w, x) || exists k :: k in kids && WaitsBelow(t, w, k, c)
  {
    UnderRefl(LocalParents(t), x);
    BelowChildren(t, x, kids);
    if WaitsBelow(t, w, x, c) && c !in WaitingIn(w, x) {
      var y :| y in t.localUidMap && Below(t, y, x) && c in WaitingIn(w, y);
      var k :| k in kids && Below(t, y, k);
      assert WaitsBelow(t, w, k, c);
    }
  }

  /** Everything hangs below the root, so that is where to look for waiting nodes. */
  lemma OrphansBelowRoot(s: State, found: seq<Collection>)
    requires Linked(s.tree) && s.pendingRemoteNodes.Keys <= s.tree.localUidMap.Keys
    requires FoundBelow(s.tree, s.pendingRemoteNodes, ROOT_ID, found)
    ensures HasOrphans(s) <==> found != []
  {
    UnderRefl(LocalParents(s.tree), ROOT_ID);
    forall y | y in s.tree.localUidMap ensures Below(s.tree, y, ROOT_ID) {
      assert y == ROOT_ID || y in LocalParents(s.tree);
    }
    if x :| Waiting(s, x) != [] {
      assert x in s.pendingRemoteNodes;
      assert Waiting(s, x)[0] in WaitingIn(s.pendingRemoteNodes, x);
      assert Waiting(s, x)[0] in found;
    }
    if found != [] {
      assert found[0] in found;
      var y :| y in s.tree.localUidMap && Below(s.tree, y, ROOT_ID) && found[0] in WaitingIn(s.pendingRemoteNodes, y);
      assert Waiting(s, y) != [];
    }
  }

  /** A pass takes no mark back and leaves the tree alone. */
  ghost predicate Keeps(s: State, s': State) {
    s'.tree == s.tree && s'.localListDone == s.localListDone && s.processed <= s'.processed
  }

  lemma {:induction false} SweepKeeps(s: State, cs: seq<Collection>)
    ensures Keeps(s, SweepAll(s, cs).state)
  {
    if cs != [] {
      SweepKeeps(s, cs[..|cs| - 1]);
      ProcessOneKeeps(SweepAll(s, cs[..|cs| - 1]), cs[|cs| - 1]);
    }
  }

  lemma ProcessOneKeeps(w: Sweep, c: Collection)
    ensures Keeps(w.state, ProcessOne(w, c).state)
  {
    var x := FindMatchingLocalNode(w.state.tree, c);
    var p := FindMatchingLocalNode(w.state.tree, c.Parent());
    if x.Some? {
      UpdateKeeps(w.state, x.value, c);
    } else if p.None? {
      PrematureKeeps(w, FindBestLocalAncestor(w.state.tree, c).node, c);
    }
  }

  lemma PrematureKeeps(w: Sweep, b: Option<Id>, c: Collection)
    ensures Keeps(w.state, ProcessPremature(w, b, c).state)
  {
  }

  lemma UpdateKeeps(s: State, x: Id, c: Collection)
    ensures Keeps(s, UpdateLocalCollection(s, x, c))
  {
    MoveKeeps(IssueModify(s, Node(s.tree, x).collection, c), Node(s.tree, x).collection, c);
  }

  lemma MoveKeeps(s: State, local: Collection, c: Collection)
    ensures Keeps(s, MoveIfNeeded(s, local, c))
  {
  }

  /** The nodes below x are x itself and the nodes below its children. */
  lemma BelowChildren(t: Tree, x: Id, kids: seq<Id>)
    requires Linked(t) && x in t.localUidMap && kids == t.localUidMap[x].childNodes
    ensures forall y :: y in t.localUidMap && Below(t, y, x) && y != x ==> exists k :: k in kids && Below(t, y, k)
    ensures forall y, k :: y in t.localUidMap && k in kids && Below(t, y, k) ==> Below(t, y, x)
  {
    ListedAreChildren(t, x);
    forall y | y in t.localUidMap && Below(t, y, x) && y != x ensures exists k :: k in kids && Below(t, y, k) {
      BelowChild(t, y, x);
      var k :| ChildOf(t.localUidMap, k, x) && Below(t, y, k);
      assert k in kids;
    }
    forall y, k | y in t.localUidMap && k in kids && Below(t, y, k) ensures Below(t, y, x) {
      ChildBelow(t, k, x);
      UnderTrans(LocalParents(t), y, k, x);
    }
  }

  function DeletesIssued(s: State, n: int, js: multiset<Job>, cs: multiset<Collection>): State {
    s.(pendingJobs := s.pendingJobs + n, jobs := s.jobs + js, deleted := s.deleted + cs)
  }

  lemma {:induction false} DeletesKeep(s: State, cols: seq<Collection>)
    ensures Keeps(s, IssueDeletes(s, cols))
  {
    if cols != [] {
      DeletesKeep(s, cols[..|cols| - 1]);
    }
  }

  lemma DeletesIssuedMore(s: State, n: int, js: multiset<Job>, cs: multiset<Collection>, c: Collection)
    ensures IssueDelete(DeletesIssued(s, n, js, cs), c)
         == DeletesIssued(s, n + 1, js + multiset{Delete(c)}, cs + multiset{c})
  {
    Regroup(s.jobs, js, multiset{Delete(c)});
    Regroup(s.deleted, cs, multiset{c});
  }

  lemma {:induction false} IssueDeletesIs(s: State, cols: seq<Collection>)
    ensures IssueDeletes(s, cols) == DeletesIssued(s, |cols|, DeletesOf(cols), multiset(cols))
  {
    if cols != [] {
      var front := cols[..|cols| - 1];
      var c := cols[|cols| - 1];
      IssueDeletesIs(s, front);
      DeletesIssuedMore(s, |front|, DeletesOf(front), multiset(front), c);
      assert multiset(cols) == multiset(front) + multiset{c} by {
        assert cols == front + [c];
      }
    }
  }

  function DeletesOf(cols: seq<Collection>): multiset<Job> {
    if cols == [] then multiset{} else DeletesOf(cols[..|cols| - 1]) + multiset{Delete(cols[|cols| - 1])}
  }

  lemma {:induction false} DeletesOfSet(cols: seq<Collection>, s: set<Collection>)
    requires NoDup(cols) && forall c :: c in cols <==> c in s
    ensures DeletesOf(cols) == multiset(DeleteJobs(s)) && multiset(cols) == multiset(s) && |cols| == |s|
  {
    if cols == [] {
      EmptyIff(cols);
      assert s == {};
      assert DeleteJobs(s) == {};
    } else {
      var last := cols[|cols| - 1];
      var front := cols[..|cols| - 1];
      assert cols == front + [last];
      DeletesOfSet(front, s - {last});
      OneMore(s, last);
    }
  }

  lemma OneMore(s: set<Collection>, c: Collection)
    requires c in s
    ensures multiset(DeleteJobs(s)) == multiset(DeleteJobs(s - {c})) + multiset{Delete(c)}
    ensures multiset(s) == multiset(s - {c}) + multiset{c}
  {
    assert DeleteJobs(s) == DeleteJobs(s - {c}) + {Delete(c)};
  }

  /** Deleting a duplicate-free list is deleting the set of its elements. */
  lemma ListingIsSet(s: State, cols: seq<Collection>, del: set<Collection>)
    requires NoDup(cols) && forall c :: c in cols <==> c in del
    ensures DeleteLocalCollections(s, cols)
         == DeletesIssued(Expecting(s, |del|), |del|, multiset(DeleteJobs(del)), multiset(del))
  {
    IssueDeletesIs(Expecting(s, |cols|), cols);
    DeletesOfSet(cols, del);
  }

  lemma DeletesUnprocessed(s: State, cols: seq<Collection>)
    requires Linked(s.tree) && ROOT_ID in s.processed && !s.incremental
    requires cols == FindUnprocessedLocalCollections(s.tree, s.processed, ROOT_ID)
    ensures DeleteLocalCollections(s, cols) == DeleteUnprocessedLocalNodes(s)
  {
    FindUnprocessedExact(s.tree, s.processed);
    ListingIsSet(s, cols, DeletableCollections(s.tree, s.processed));
  }

  /** The create job for one remote node is issued, for a list of them, and for a table. */
  function IssueOne(s: State, p: Id, c: Collection): State {
    s.(pendingJobs := s.pendingJobs + 1, jobs := s.jobs + multiset{CreateJob(s.tree, p, c)},
        handled := s.handled + multiset{c})
  }

  function IssueList(s: State, p: Id, cs: seq<Collection>): State {
    if cs == [] then s else IssueOne(IssueList(s, p, cs[..|cs| - 1]), p, cs[|cs| - 1])
  }

  ghost function IssueTable(s: State, pc: Creations): State {
    IssueCreations(s, Sum(JobsByParent(s.tree, pc)), Sum(CreatedByParent(pc)))
  }

  lemma IssueListNext(s: State, p: Id, cs: seq<Collection>, i: nat)
    requires i < |cs|
    ensures IssueList(s, p, cs[..i + 1]) == IssueOne(IssueList(s, p, cs[..i]), p, cs[i])
  {
    assert cs[..i + 1][..i] == cs[..i];
  }

  function Issued(s: State, n: int, js: multiset<Job>, cs: multiset<Collection>): State {
    s.(pendingJobs := s.pendingJobs + n, jobs := s.jobs + js, handled := s.handled + cs)
  }

  lemma IssuedMore(s: State, n: int, js: multiset<Job>, cs: multiset<Collection>, p: Id, c: Collection)
    ensures IssueOne(Issued(s, n, js, cs), p, c)
         == Issued(s, n + 1, js + multiset{CreateJob(s.tree, p, c)}, cs + multiset{c})
  {
    Regroup(s.jobs, js, multiset{CreateJob(s.tree, p, c)});
    Regroup(s.handled, cs, multiset{c});
  }

  lemma {:induction false} IssueListIs(s: State, p: Id, cs: seq<Collection>)
    ensures IssueList(s, p, cs) == Issued(s, |cs|, JobsFor(s.tree, p, cs), multiset(cs))
  {
    if cs != [] {
      var front := cs[..|cs| - 1];
      var c := cs[|cs| - 1];
      IssueListIs(s, p, front);
      IssuedMore(s, |front|, JobsFor(s.tree, p, front), multiset(front), p, c);
      assert multiset(cs) == multiset(front) + multiset{c} by {
        assert cs == front + [c];
      }
    }
  }

  /** The creations of one parent can be issued first, whichever it is. */
  lemma TableTake(s: State, pc: Creations, n: TreeNode)
    requires n in pc
    ensures IssueTable(s, pc) == IssueTable(IssueList(s, n.Uid(), pc[n]), pc - {n})
  {
    IssueListIs(s, n.Uid(), pc[n]);
    CreationsTake(s.tree, pc, n);
    JobsForSize(s.tree, n.Uid(), pc[n]);
    Regroup(s.jobs, JobsFor(s.tree, n.Uid(), pc[n]), Sum(JobsByParent(s.tree, pc - {n})));
    Regroup(s.handled, multiset(pc[n]), Sum(CreatedByParent(pc - {n})));
  }

  lemma TableNone(s: State, pc: Creations)
    requires pc.Keys == {}
    ensures IssueTable(s, pc) == s
  {
    NoCreations(s.tree, pc);
  }

  lemma Regroup<T>(a: multiset<T>, b: multiset<T>, c: multiset<T>)
    ensures a + (c + b) == (a + b) + c && (a + b) + c == a + (b + c)
  {
  }

  lemma NoCreations(t: Tree, pc: Creations)
    requires pc.Keys == {}
    ensures Sum(JobsByParent(t, pc)) == multiset{} && Sum(CreatedByParent(pc)) == multiset{}
  {
    assert JobsByParent(t, pc) == map[] && CreatedByParent(pc) == map[];
  }

  /** What becomes of a remote node without a match. */
  function Unmatched(w: Sweep, c: Collection): Sweep {
    var p := FindMatchingLocalNode(w.state.tree, c.Parent());
    if p.Some? then ProcessCreatable(w, p.value, c)
    else ProcessPremature(w, FindBestLocalAncestor(w.state.tree, c).node, c)
  }

  lemma CreatableSwept(w: Sweep, s: State, n: TreeNode, c: Collection, pc: Creations)
    requires Swept(w, s, s.tree, pc, false)
    ensures Swept(ProcessCreatable(w, n.Uid(), c), s, s.tree, pc[n := ListAt(pc, n) + [c]], false)
  {
    CreationsAdd(s.tree, pc, n, c);
  }

  /** How far a pass has come: the sweep of the specification, with its creations as a table. */
  ghost predicate Swept(w: Sweep, s: State, t: Tree, pc: Creations, aborted: bool) {
    && w.state == s && w.state.tree == t && w.aborted == aborted
    && w.creations == Sum(JobsByParent(t, pc)) && w.created == Sum(CreatedByParent(pc))
  }

  /** A step that leaves tree and table alone moves only the state on. */
  lemma StateSwept(w: Sweep, s: State, s': State, pc: Creations, aborted: bool)
    requires Swept(w, s, s.tree, pc, false) && s'.tree == s.tree
    ensures Swept(w.(state := s', aborted := aborted), s', s'.tree, pc, aborted)
  {
  }

  lemma PassIs(s: State, n: Id, s1: State, pc: Creations, aborted: bool)
    requires Swept(SweepAll(SetWaiting(s, n, []), Waiting(s, n)), s1, s1.tree, pc, aborted)
    ensures ProcessPendingRemoteNodes(s, n)
         == if aborted then s1 else IssueTable(s1, pc)
  {
  }

  lemma {:induction false} JobsForSize(t: Tree, p: Id, cs: seq<Collection>)
    ensures |JobsFor(t, p, cs)| == |cs|
  {
    if cs != [] {
      JobsForSize(t, p, cs[..|cs| - 1]);
    }
  }

  lemma NothingSwept(s: State, cs: seq<Collection>)
    ensures Swept(SweepAll(s, cs[..0]), s, s.tree, map[], false)
  {
    NoCreations(s.tree, map[]);
  }

  lemma PrefixNext<T>(s: seq<T>, i: nat)
    requires i < |s|
    ensures s[..i + 1] == s[..i] + [s[i]]
  {
  }

  lemma SweepNext(s: State, cs: seq<Collection>, c: Collection)
    ensures SweepAll(s, cs + [c]) == ProcessOne(SweepAll(s, cs), c)
  {
    assert (cs + [c])[..|cs|] == cs;
  }

  /** A pass ends with the last node, or where it was aborted. */
  lemma {:induction false} AllSwept(s: State, cs: seq<Collection>, i: nat)
    requires i <= |cs| && (i < |cs| ==> SweepAll(s, cs[..i]).aborted)
    ensures SweepAll(s, cs) == SweepAll(s, cs[..i])
  {
    if i == |cs| {
      assert cs[..i] == cs;
    } else {
      assert cs[..|cs| - 1][..i] == cs[..i];
      AllSwept(s, cs[..|cs| - 1], i);
    }
  }

  /** The uids of a batch are all new. */
  ghost predicate FreshUids(known: set<Id>, cols: seq<Collection>) {
    && (forall i :: 0 <= i < |cols| ==> cols[i].Uid() !in known)
    && (forall i, j :: 0 <= i < j < |cols| ==> cols[i].Uid() != cols[j].Uid())
  }
}
