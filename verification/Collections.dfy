/** Collection values as the client library hands them around (akonadi/entity.cpp,
    akonadi/collection_p.h), and the option type shared by the other modules. */
module Collections {

  datatype Option<+T> = None | Some(value: T)

  type Id = int

  const ROOT_ID: Id := 0

  /** A collection with its chain of parent collections. A collection that was never
      given a parent answers `Invalid` when asked for it, and so does `Invalid` itself. */
  datatype Collection =
    | Invalid
    | Collection(id: Id, remoteId: string, name: string, display: Option<string>, parent: Collection)
  {
    function Uid(): Id { if Invalid? then -1 else id }

    function Rid(): string { if Invalid? then "" else remoteId }

    function Name(): string { if Invalid? then "" else name }

    function Display(): Option<string> { if Invalid? then None else display }

    function Parent(): Collection { if Invalid? then Invalid else parent }

    /** Entities compare by id alone. */
    predicate IsRoot() { Uid() == ROOT_ID }
  }

  const ROOT := Collection(ROOT_ID, "", "", None, Invalid)

  /** Some element of a non-empty set. */
  ghost function Pick<T>(xs: set<T>): (x: T)
    requires xs != {}
    ensures x in xs
  {
    var x :| x in xs;
    x
  }

  function Elements<T>(s: seq<T>): set<T> {
    set x | x in s
  }

  lemma ElementsLast<T>(s: seq<T>)
    requires s != []
    ensures Elements(s) == Elements(s[..|s| - 1]) + {s[|s| - 1]}
  {
    assert s == s[..|s| - 1] + [s[|s| - 1]];
  }

  /** No element occurs twice. */
  ghost predicate NoDup<T>(s: seq<T>) {
    forall i, j :: 0 <= i < j < |s| ==> s[i] != s[j]
  }

  lemma NoDupConcat<T>(a: seq<T>, b: seq<T>)
    requires NoDup(a) && NoDup(b) && forall x :: x in b ==> x !in a
    ensures NoDup(a + b)
  {
    forall i, j | 0 <= i < j < |a + b| ensures (a + b)[i] != (a + b)[j] {
      if i < |a| <= j {
        assert b[j - |a|] in b;
      }
    }
  }

  lemma EmptyIff<T>(s: seq<T>)
    ensures s == [] <==> forall x :: x !in s
  {
    if s != [] {
      assert s[0] in s;
    }
  }

  /** A list without duplicates holds each of its elements exactly once. */
  lemma {:induction false} NoDupCount<T>(s: seq<T>, x: T)
    requires NoDup(s)
    ensures multiset(s)[x] == if x in s then 1 else 0
  {
    if s != [] {
      assert s == s[..|s| - 1] + [s[|s| - 1]];
      NoDupCount(s[..|s| - 1], x);
    }
  }

  /** The sum of a family of multisets; it does not depend on the order of summation. */
  ghost function Sum<K, T>(f: map<K, multiset<T>>): multiset<T>
    decreases |f|
  {
    if f == map[] then multiset{}
    else
      var k := Pick(f.Keys);
      Sum(f - {k}) + f[k]
  }

  lemma {:induction false} SumTake<K, T>(f: map<K, multiset<T>>, k: K)
    requires k in f
    ensures Sum(f) == Sum(f - {k}) + f[k]
    decreases |f|
  {
    var j := Pick(f.Keys);
    if j != k {
      SumTake(f - {j}, k);
      SumTake(f - {k}, j);
      assert f - {j} - {k} == f - {k} - {j};
    }
  }

  lemma SumAdd<K, T>(f: map<K, multiset<T>>, g: map<K, multiset<T>>, k: K, x: multiset<T>)
    requires k in g && g - {k} == f - {k} && g[k] == (if k in f then f[k] + x else x)
    ensures Sum(g) == Sum(f) + x
  {
    SumTake(g, k);
    if k in f {
      SumTake(f, k);
    } else {
      assert f - {k} == f;
    }
  }

  /** Empty summands add nothing. */
  lemma {:induction false} SumExtend<K, T>(f: map<K, multiset<T>>, g: map<K, multiset<T>>)
    requires f.Keys <= g.Keys && (forall k :: k in f ==> g[k] == f[k])
        && (forall k :: k in g && k !in f ==> g[k] == multiset{})
    ensures Sum(g) == Sum(f)
    decreases g.Keys - f.Keys
  {
    if g.Keys - f.Keys == {} {
      forall k | k in g.Keys ensures k in f.Keys {
        assert k !in g.Keys - f.Keys;
      }
      assert g == f;
    } else {
      var k := Pick(g.Keys - f.Keys);
      var h := g - {k};
      assert k !in f && forall j :: j in h ==> j in g && h[j] == g[j];
      assert h.Keys - f.Keys < g.Keys - f.Keys;
      SumExtend(f, h);
      SumTake(g, k);
    }
  }
}
