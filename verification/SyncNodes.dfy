/** The node objects of a synchronisation (akonadi/collectionsync.cpp, class LocalNode), the maps
    that lead to them, and the values these stand for. */
module SyncNodes {
  import opened Collections
  import opened SyncState

  /** A local collection with its children, and the remote nodes waiting at it. */
  class TreeNode {
    const collection: Collection
    var childNodes: seq<TreeNode>
    var childRidMap: map<string, TreeNode>
    var pendingRemoteNodes: seq<Collection>
    var processed: bool

    constructor (col: Collection)
      ensures collection == col && childNodes == [] && childRidMap == map[] && pendingRemoteNodes == [] && !processed
    {
      collection := col;
      childNodes, childRidMap, pendingRemoteNodes, processed := [], map[], [], false;
    }

    function Uid(): Id { collection.Uid() }

    /** The node with its pointers replaced by uids. */
    ghost function Value(): LocalNode
      reads this`childNodes, this`childRidMap
    {
      LocalNode(collection, Uids(childNodes), map r | r in childRidMap :: childRidMap[r].Uid())
    }

    method appendChild(child: TreeNode)
      modifies this`childNodes, this`childRidMap
      ensures childNodes == old(childNodes) + [child]
      ensures childRidMap == if child.collection.Rid() != "" then old(childRidMap)[child.collection.Rid() := child]
          else old(childRidMap)
      ensures Value() == AddChild(old(Value()), child.Uid(), child.collection.Rid())
    {
      childNodes := childNodes + [child];
      if child.collection.Rid() != "" {
        childRidMap := childRidMap[child.collection.Rid() := child];
      }
      assert Uids(old(childNodes) + [child]) == Uids(old(childNodes)) + [child.Uid()];
      assert Value().childRidMap == AddChild(old(Value()), child.Uid(), child.collection.Rid()).childRidMap;
    }
  }

  ghost function Uids(ns: seq<TreeNode>): seq<Id> {
    seq(|ns|, i requires 0 <= i < |ns| => ns[i].Uid())
  }

  // ------------------------------------------------------------------ maps of nodes

  ghost predicate KnownIn(m: map<Id, TreeNode>, n: TreeNode) {
    n.Uid() in m && m[n.Uid()] == n
  }

  ghost predicate KnownLinks(m: map<Id, TreeNode>, n: TreeNode)
    reads n`childNodes, n`childRidMap
  {
    && (forall i :: 0 <= i < |n.childNodes| ==> KnownIn(m, n.childNodes[i]))
    && (forall r :: r in n.childRidMap ==> KnownIn(m, n.childRidMap[r]))
  }

  ghost predicate Inside(m: map<Id, TreeNode>, nodes: set<TreeNode>) {
    forall x :: x in m ==> m[x] in nodes
  }

  ghost predicate WellLinked(m: map<Id, TreeNode>, nodes: set<TreeNode>)
    reads nodes`childNodes, nodes`childRidMap
  {
    && Inside(m, nodes)
    && (forall x :: x in m ==> m[x].Uid() == x)
    && (forall x {:trigger KnownLinks(m, m[x])} :: x in m ==> KnownLinks(m, m[x]))
  }

  lemma LinkedGrows(m: map<Id, TreeNode>, nodes: set<TreeNode>, n: TreeNode)
    requires WellLinked(m, nodes) && KnownLinks(m, n) && n.Uid() !in m
    ensures WellLinked(m[n.Uid() := n], nodes + {n})
    ensures forall k :: KnownIn(m, k) ==> KnownIn(m[n.Uid() := n], k)
  {
    var m' := m[n.Uid() := n];
    forall x | x in m' ensures KnownLinks(m', m'[x]) {
      assert x in m ==> KnownLinks(m, m[x]);
    }
  }

  ghost function NodesOf(m: map<Id, TreeNode>, nodes: set<TreeNode>): map<Id, LocalNode>
    requires Inside(m, nodes)
    reads nodes`childNodes, nodes`childRidMap
  {
    map x | x in m :: m[x].Value()
  }

  ghost function RidsOf(m: map<string, TreeNode>): map<string, Id> {
    map r | r in m :: m[r].Uid()
  }

  ghost function WaitingOf(m: map<Id, TreeNode>, nodes: set<TreeNode>): map<Id, seq<Collection>>
    requires Inside(m, nodes)
    reads nodes`pendingRemoteNodes
  {
    map x | x in m && m[x].pendingRemoteNodes != [] :: m[x].pendingRemoteNodes
  }

  ghost function ProcessedOf(m: map<Id, TreeNode>, nodes: set<TreeNode>): set<Id>
    requires Inside(m, nodes)
    reads nodes`processed
  {
    set x | x in m && m[x].processed
  }

  lemma NodeAdded(m: map<Id, TreeNode>, nodes: set<TreeNode>, x: Id, n: TreeNode)
    requires Inside(m, nodes) && x !in m && n.pendingRemoteNodes == [] && !n.processed
    ensures Inside(m[x := n], nodes + {n})
    ensures NodesOf(m[x := n], nodes + {n}) == NodesOf(m, nodes)[x := n.Value()]
    ensures WaitingOf(m[x := n], nodes + {n}) == WaitingOf(m, nodes)
    ensures ProcessedOf(m[x := n], nodes + {n}) == ProcessedOf(m, nodes)
  {
    var m' := m[x := n];
    assert forall y :: y in m ==> m'[y] == m[y];
  }

  lemma RidAdded(m: map<string, TreeNode>, r: string, n: TreeNode)
    ensures RidsOf(m[r := n]) == RidsOf(m)[r := n.Uid()]
  {
  }

  /** Every pointer leads to the one node filed under its uid. */
  ghost predicate Connected(root: TreeNode, m: map<Id, TreeNode>, rids: map<string, TreeNode>,
      parked: map<Id, seq<Id>>, nodes: set<TreeNode>)
    reads nodes`childNodes, nodes`childRidMap
  {
    && KnownIn(m, root) && root.collection == ROOT
    && WellLinked(m, nodes)
    && (forall r :: r in rids ==> KnownIn(m, rids[r]))
    && (forall p, i :: p in parked && 0 <= i < |parked[p]| ==> parked[p][i] in m)
  }

  /** Filing a new node whose links are known keeps everything linked. */
  lemma ConnectedGrows(root: TreeNode, m: map<Id, TreeNode>, rids: map<string, TreeNode>, parked: map<Id, seq<Id>>,
      nodes: set<TreeNode>, n: TreeNode)
    requires Connected(root, m, rids, parked, nodes) && KnownLinks(m, n) && n.Uid() !in m
    ensures Connected(root, m[n.Uid() := n], rids, parked - {n.Uid()}, nodes + {n})
  {
    LinkedGrows(m, nodes, n);
  }
}
