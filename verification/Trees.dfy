/** Trees given by parent pointers. The key set of a `ParentMap` is the set of non-root
    nodes; the root is node 0 and has no entry of its own. */
module Trees {
  import opened Collections

  type ParentMap = map<Id, Id>

  /** The k-th ancestor; the walk stops at the first id without an entry. */
  ghost function Up(par: ParentMap, x: Id, k: nat): Id
    decreases k
  {
    if k == 0 || x !in par then x else Up(par, par[x], k - 1)
  }

  /** a is x or an ancestor of x. */
  ghost predicate Under(par: ParentMap, x: Id, a: Id) {
    exists k: nat :: Up(par, x, k) == a
  }

  /** Every parent chain ends in the root. */
  ghost predicate Rooted(par: ParentMap) {
    && ROOT_ID !in par
    && forall x :: x in par ==> Under(par, x, ROOT_ID)
  }

  lemma UnderRefl(par: ParentMap, x: Id)
    ensures Under(par, x, x)
  {
    assert Up(par, x, 0) == x;
  }

  /** Ancestors of the parent are ancestors of the child, and nothing else is. */
  lemma UnderStep(par: ParentMap, x: Id, a: Id)
    requires x in par
    ensures Under(par, x, a) <==> x == a || Under(par, par[x], a)
  {
    if Under(par, x, a) && x != a {
      var k: nat :| Up(par, x, k) == a;
      assert Up(par, par[x], k - 1) == a;
    }
    if Under(par, par[x], a) {
      var k: nat :| Up(par, par[x], k) == a;
      assert Up(par, x, k + 1) == a;
    }
    if x == a {
      UnderRefl(par, x);
    }
  }

  lemma {:induction false} UpAdd(par: ParentMap, x: Id, i: nat, j: nat)
    ensures Up(par, x, i + j) == Up(par, Up(par, x, i), j)
    decreases i
  {
    if i > 0 && x in par {
      UpAdd(par, par[x], i - 1, j);
    }
  }

  lemma UnderTrans(par: ParentMap, x: Id, y: Id, z: Id)
    requires Under(par, x, y) && Under(par, y, z)
    ensures Under(par, x, z)
  {
    var i: nat :| Up(par, x, i) == y;
    var j: nat :| Up(par, y, j) == z;
    UpAdd(par, x, i, j);
    assert Up(par, x, i + j) == z;
  }

  /** Two ancestors of one node lie on one chain. */
  lemma UnderLinear(par: ParentMap, x: Id, a: Id, b: Id)
    requires Under(par, x, a) && Under(par, x, b)
    ensures Under(par, a, b) || Under(par, b, a)
  {
    var i: nat :| Up(par, x, i) == a;
    var j: nat :| Up(par, x, j) == b;
    if i <= j {
      UpAdd(par, x, i, j - i);
      assert Up(par, a, j - i) == b;
    } else {
      UpAdd(par, x, j, i - j);
      assert Up(par, b, i - j) == a;
    }
  }

  /** Steps to the root, for a walk that reaches it within k steps. */
  ghost function StepsToRoot(par: ParentMap, x: Id, k: nat): nat
    requires ROOT_ID !in par && Up(par, x, k) == ROOT_ID
    decreases k
  {
    if x == ROOT_ID then 0 else 1 + StepsToRoot(par, par[x], k - 1)
  }

  lemma {:induction false} StepsUnique(par: ParentMap, x: Id, j: nat, k: nat)
    requires ROOT_ID !in par && Up(par, x, j) == ROOT_ID && Up(par, x, k) == ROOT_ID
    ensures StepsToRoot(par, x, j) == StepsToRoot(par, x, k)
    decreases j
  {
    if x != ROOT_ID {
      StepsUnique(par, par[x], j - 1, k - 1);
    }
  }

  /** Distance from the root. */
  ghost function Depth(par: ParentMap, x: Id): nat
    requires Rooted(par) && (x == ROOT_ID || x in par)
  {
    UnderRefl(par, ROOT_ID);
    var k: nat :| Up(par, x, k) == ROOT_ID;
    StepsToRoot(par, x, k)
  }

  lemma DepthIs(par: ParentMap, x: Id, k: nat)
    requires Rooted(par) && (x == ROOT_ID || x in par) && Up(par, x, k) == ROOT_ID
    ensures Depth(par, x) == StepsToRoot(par, x, k)
  {
    UnderRefl(par, ROOT_ID);
    var j: nat :| Up(par, x, j) == ROOT_ID && Depth(par, x) == StepsToRoot(par, x, j);
    StepsUnique(par, x, j, k);
  }

  lemma DepthStep(par: ParentMap, x: Id)
    requires Rooted(par) && x in par
    ensures par[x] == ROOT_ID || par[x] in par
    ensures Depth(par, x) == Depth(par, par[x]) + 1
  {
    var k: nat :| Up(par, x, k) == ROOT_ID;
    assert k > 0;
    assert Up(par, par[x], k - 1) == ROOT_ID;
    DepthIs(par, x, k);
    DepthIs(par, par[x], k - 1);
  }

  /** An ancestor is nearer to the root. */
  lemma {:induction false} UnderDepth(par: ParentMap, x: Id, a: Id)
    requires Rooted(par) && (x == ROOT_ID || x in par) && Under(par, x, a)
    ensures a == ROOT_ID || a in par
    ensures x != a ==> Depth(par, a) < Depth(par, x)
    decreases Depth(par, x)
  {
    if x != a {
      assert x in par;
      UnderStep(par, x, a);
      DepthStep(par, x);
      UnderDepth(par, par[x], a);
    }
  }

  ghost predicate DepthBound(par: ParentMap, xs: set<Id>, b: nat)
    requires Rooted(par) && xs <= par.Keys
  {
    forall x :: x in xs ==> Depth(par, x) <= b
  }

  lemma {:induction false} DepthBoundExists(par: ParentMap, xs: set<Id>)
    requires Rooted(par) && xs <= par.Keys
    ensures exists b: nat :: DepthBound(par, xs, b)
  {
    if xs == {} {
      assert DepthBound(par, xs, 0);
    } else {
      var y := Pick(xs);
      DepthBoundExists(par, xs - {y});
      var b: nat :| DepthBound(par, xs - {y}, b);
      var m := if Depth(par, y) > b then Depth(par, y) else b;
      forall x | x in xs ensures Depth(par, x) <= m {
        if x != y { assert x in xs - {y}; }
      }
      assert DepthBound(par, xs, m);
    }
  }

  /** An upper bound on every depth; it makes walks away from the root terminate. */
  ghost function Height(par: ParentMap): (b: nat)
    requires Rooted(par)
    ensures DepthBound(par, par.Keys, b)
  {
    DepthBoundExists(par, par.Keys);
    var b: nat :| DepthBound(par, par.Keys, b);
    b
  }

  /** Restricting a parent map to a set closed under parents keeps every chain. */
  lemma {:induction false} UpRestrict(par: ParentMap, sub: ParentMap, x: Id, k: nat)
    requires sub.Keys <= par.Keys && ROOT_ID !in par
    requires forall y :: y in sub ==> sub[y] == par[y] && (sub[y] in sub || sub[y] == ROOT_ID)
    requires x in sub || x == ROOT_ID
    ensures Up(sub, x, k) == Up(par, x, k)
    decreases k
  {
    if k > 0 && x in sub {
      UpRestrict(par, sub, sub[x], k - 1);
    }
  }

  lemma UnderRestrict(par: ParentMap, sub: ParentMap, x: Id, a: Id)
    requires sub.Keys <= par.Keys && ROOT_ID !in par
    requires forall y :: y in sub ==> sub[y] == par[y] && (sub[y] in sub || sub[y] == ROOT_ID)
    requires x in sub || x == ROOT_ID
    ensures Under(sub, x, a) <==> Under(par, x, a)
  {
    forall k: nat ensures Up(sub, x, k) == Up(par, x, k) {
      UpRestrict(par, sub, x, k);
    }
  }

  /** Hanging a new leaf onto a rooted tree keeps it rooted and leaves old chains alone. */
  lemma RootedLeaf(par: ParentMap, par': ParentMap, leaf: Id, p: Id)
    requires Rooted(par) && leaf !in par && leaf != ROOT_ID
    requires p == ROOT_ID || p in par
    requires par' == par[leaf := p]
    ensures Rooted(par')
    ensures forall x, a :: x in par ==> (Under(par', x, a) <==> Under(par, x, a))
    ensures forall a :: Under(par', leaf, a) <==> a == leaf || Under(par, p, a)
  {
    assert forall y :: y in par ==> par[y] == ROOT_ID || par[y] in par by {
      forall y | y in par ensures par[y] == ROOT_ID || par[y] in par { DepthStep(par, y); }
    }
    forall x, a | x in par || x == ROOT_ID ensures Under(par', x, a) <==> Under(par, x, a) {
      UnderRestrict(par', par, x, a);
    }
    forall a ensures Under(par', leaf, a) <==> a == leaf || Under(par, p, a) {
      UnderStep(par', leaf, a);
    }
    UnderRefl(par, ROOT_ID);
    forall x | x in par' ensures Under(par', x, ROOT_ID) {
      if x == leaf {
        if p != ROOT_ID { assert Under(par, p, ROOT_ID); }
      }
    }
  }

  /** Chains that do not meet x do not notice that x gets another parent. */
  lemma {:induction false} UpMove(par: ParentMap, x: Id, q: Id, y: Id, k: nat)
    requires !Under(par, y, x) && x in par
    ensures Up(par[x := q], y, k) == Up(par, y, k)
    decreases k
  {
    UnderRefl(par, x);
    if k > 0 && y in par {
      UnderStep(par, y, x);
      UpMove(par, x, q, par[y], k - 1);
    }
  }

  /** Moving a subtree to a place outside of it keeps a tree rooted. */
  lemma RootedMove(par: ParentMap, x: Id, q: Id)
    requires Rooted(par) && x in par && (q == ROOT_ID || q in par) && !Under(par, q, x)
    ensures Rooted(par[x := q])
  {
    var par' := par[x := q];
    UnderRefl(par, ROOT_ID);
    var k: nat :| Up(par, q, k) == ROOT_ID;
    UpMove(par, x, q, q, k);
    assert Under(par', q, ROOT_ID);
    UnderStep(par', x, ROOT_ID);
    forall y | y in par ensures Under(par', y, ROOT_ID) {
      MovedUnder(par, x, q, y);
    }
  }

  lemma {:induction false} MovedUnder(par: ParentMap, x: Id, q: Id, y: Id)
    requires Rooted(par) && x in par && (y == ROOT_ID || y in par) && Under(par[x := q], x, ROOT_ID)
    ensures Under(par[x := q], y, ROOT_ID)
    decreases Depth(par, y)
  {
    var par' := par[x := q];
    if y == ROOT_ID {
      UnderRefl(par', y);
    } else if y != x {
      DepthStep(par, y);
      MovedUnder(par, x, q, par[y]);
      UnderStep(par', y, ROOT_ID);
    }
  }
}
