/** Converting between collection ids and paths (akonadi/collectionpathresolver.cpp): the job
    walks the collection tree one fetch at a time. */
module CollectionPathResolver {
  import opened Collections
  import opened Trees
  import opened PathSplitting

  // ------------------------------------------------------------------ the collection tree

  datatype Entry = Entry(parent: Id, name: string)

  type World = map<Id, Entry>

  function Parents(w: World): ParentMap {
    map x | x in w :: w[x].parent
  }

  ghost predicate Exists(w: World, x: Id) {
    x == ROOT_ID || x in w
  }

  /** The names from just below the root down to a collection. */
  ghost function NamesTo(w: World, x: Id): seq<string>
    requires Rooted(Parents(w)) && Exists(w, x)
    decreases Depth(Parents(w), x)
  {
    if x == ROOT_ID then []
    else
      DepthStep(Parents(w), x);
      NamesTo(w, w[x].parent) + [w[x].name]
  }

  ghost predicate UniqueSiblings(w: World) {
    forall x, y :: x in w && y in w && w[x].parent == w[y].parent && w[x].name == w[y].name ==> x == y
  }

  lemma {:induction false} NamesInjective(w: World, x: Id, y: Id)
    requires Rooted(Parents(w)) && Exists(w, x) && Exists(w, y) && UniqueSiblings(w)
    requires NamesTo(w, x) == NamesTo(w, y)
    ensures x == y
    decreases |NamesTo(w, x)|
  {
    if x != ROOT_ID && y != ROOT_ID {
      DepthStep(Parents(w), x);
      DepthStep(Parents(w), y);
      var a, b := NamesTo(w, x), NamesTo(w, y);
      assert a[..|a| - 1] == NamesTo(w, w[x].parent) && b[..|b| - 1] == NamesTo(w, w[y].parent);
      assert a[|a| - 1] == w[x].name && b[|b| - 1] == w[y].name;
      NamesInjective(w, w[x].parent, w[y].parent);
    }
  }

  // ------------------------------------------------------------------ the server

  datatype Fetch = FirstLevel(base: Id) | Base(base: Id)

  /** A collection as the fetch reports it. */
  function Reported(w: World, x: Id): Collection
    requires x in w
  {
    Collection(x, "", w[x].name, None, Collection(w[x].parent, "", "", None, Invalid))
  }

  /** What fetches answer: the collection itself, or its children in some order. */
  ghost predicate Serves(w: World, list: Fetch -> seq<Collection>) {
    && (forall x :: list(Base(x)) == if x in w then [Reported(w, x)] else [])
    && (forall p, c :: c in list(FirstLevel(p)) <==>
        c.Uid() in w && w[c.Uid()].parent == p && c == Reported(w, c.Uid()))
  }

  // ------------------------------------------------------------------ the job

  datatype Progress = Failed | Resolved | Next(fetch: Fetch)

  /** One delimiter is stripped at each end. */
  function Normalized(path: string): string {
    var p := if path != "" && path[0] == SLASH then path[1..] else path;
    if EndsIn(p, SLASH) then p[..|p| - 1] else p
  }

  /** The first collection with a given name is at position k. */
  ghost predicate FirstNamed(cols: seq<Collection>, name: string, k: int) {
    0 <= k < |cols| && cols[k].Name() == name && forall i :: 0 <= i < k ==> cols[i].Name() != name
  }

  class CollectionPathResolver {
    var mColId: Id
    var mPath: string
    var mPathToId: bool
    var mPathParts: seq<string>
    var mCurrentNode: Id

    constructor FromPath(path: string)
      ensures mPathToId && mPath == Normalized(path) && mPathParts == Split(mPath) && mCurrentNode == ROOT_ID
    {
      mPathToId := true;
      mColId := -1;
      mPath := Normalized(path);
      mPathParts := [];
      mCurrentNode := ROOT_ID;
      new;
      mPathParts := splitPath(mPath);
    }

    constructor FromCollection(collection: Id)
      ensures !mPathToId && mColId == collection && mCurrentNode == collection && mPathParts == []
    {
      mPathToId, mColId, mCurrentNode, mPath, mPathParts := false, collection, collection, "", [];
    }

    function path(): string
      reads this
    {
      if mPathToId then mPath else Join(mPathParts)
    }

    method doStart() returns (p: Progress)
      modifies this`mColId
      ensures if (if mPathToId then mPath == "" else old(mColId) == ROOT_ID) then p == Resolved && mColId == ROOT_ID
              else mColId == old(mColId) && p == Next(if mPathToId then FirstLevel(mCurrentNode)
                  else Base(mCurrentNode))
    {
      if mPathToId {
        if mPath == "" {
          mColId := ROOT_ID;
          return Resolved;
        }
        p := Next(FirstLevel(mCurrentNode));
      } else {
        if mColId == ROOT_ID {
          return Resolved;
        }
        p := Next(Base(mCurrentNode));
      }
    }

    /** The children of the current node arrived: the first with the next name is taken. */
    method childrenFetched(cols: seq<Collection>) returns (p: Progress)
      requires mPathToId && mPathParts != []
      modifies this
      ensures mPathToId && mPath == old(mPath) && mPathParts == old(mPathParts)[1..]
      ensures p == Failed <==> forall c :: c in cols ==> c.Name() != old(mPathParts)[0]
      ensures p != Failed ==> exists k :: FirstNamed(cols, old(mPathParts)[0], k) && mCurrentNode == cols[k].Uid()
      ensures p != Failed && mPathParts == [] ==> p == Resolved && mColId == mCurrentNode
      ensures p != Failed && mPathParts != [] ==> p == Next(FirstLevel(mCurrentNode))
    {
      var currentPart := mPathParts[0];
      mPathParts := mPathParts[1..];
      var found := false;
      var i := 0;
      while i < |cols| && !found
        invariant i <= |cols|
        invariant found ==> exists k :: FirstNamed(cols, currentPart, k) && mCurrentNode == cols[k].Uid()
        invariant !found ==> forall k :: 0 <= k < i ==> cols[k].Name() != currentPart
        invariant mPathToId && mPath == old(mPath) && mPathParts == old(mPathParts)[1..]
      {
        if cols[i].Name() == currentPart {
          assert FirstNamed(cols, currentPart, i);
          mCurrentNode := cols[i].Uid();
          found := true;
        }
        i := i + 1;
      }
      if !found {
        return Failed;
      }
      if mPathParts == [] {
        mColId := mCurrentNode;
        return Resolved;
      }
      p := Next(FirstLevel(mCurrentNode));
    }

    /** The current node arrived: its name is prepended, and its parent is next. */
    method nodeFetched(cols: seq<Collection>) returns (p: Progress)
      requires !mPathToId && cols != []
      modifies this`mCurrentNode, this`mPathParts
      ensures mCurrentNode == cols[0].Parent().Uid() && mPathParts == [cols[0].Name()] + old(mPathParts)
      ensures p == if mCurrentNode == ROOT_ID then Resolved else Next(Base(mCurrentNode))
    {
      mCurrentNode := cols[0].Parent().Uid();
      mPathParts := [cols[0].Name()] + mPathParts;
      p := if mCurrentNode == ROOT_ID then Resolved else Next(Base(mCurrentNode));
    }

    method jobResult(cols: seq<Collection>) returns (p: Progress)
      requires mPathToId ==> mPathParts != []
      modifies this
      ensures mPathToId == old(mPathToId) && mPath == old(mPath)
      ensures cols == [] ==> p == Failed
      ensures cols != [] && mPathToId ==>
        && mPathParts == old(mPathParts)[1..]
        && (p == Failed <==> forall c :: c in cols ==> c.Name() != old(mPathParts)[0])
        && (p != Failed ==> exists k :: FirstNamed(cols, old(mPathParts)[0], k) && mCurrentNode == cols[k].Uid())
        && (p != Failed && mPathParts == [] ==> p == Resolved && mColId == mCurrentNode)
        && (p != Failed && mPathParts != [] ==> p == Next(FirstLevel(mCurrentNode)))
      ensures cols != [] && !mPathToId ==>
        && mColId == old(mColId)
        && mCurrentNode == cols[0].Parent().Uid() && mPathParts == [cols[0].Name()] + old(mPathParts)
        && p == if mCurrentNode == ROOT_ID then Resolved else Next(Base(mCurrentNode))
    {
      if cols == [] {
        return Failed;
      }
      if mPathToId {
        p := childrenFetched(cols);
      } else {
        p := nodeFetched(cols);
      }
    }

    /** Runs the job from a path to the end: it finds the collection with exactly the names of
        the path below the root, or fails when there is none. */
    method resolvePath(w: World, list: Fetch -> seq<Collection>) returns (ok: bool)
      requires mPathToId && mPathParts == Split(mPath) && mCurrentNode == ROOT_ID
      requires Rooted(Parents(w)) && UniqueSiblings(w) && Serves(w, list)
      modifies this
      ensures mPath == old(mPath)
      ensures ok ==> Exists(w, mColId) && NamesTo(w, mColId) == Split(mPath)
      ensures !ok ==> forall x :: Exists(w, x) ==> NamesTo(w, x) != Split(mPath)
    {
      ghost var all := mPathParts;
      var p := doStart();
      assert NamesTo(w, ROOT_ID) + all == all;
      while p.Next?
        invariant mPathToId && mPath == old(mPath)
        invariant p.Next? ==> p == Next(FirstLevel(mCurrentNode)) && mPathParts != []
        invariant Walked(w, p, mCurrentNode, mPathParts, mColId, all)
        decreases if p.Next? then 1 + |mPathParts| else 0
      {
        ghost var node, parts := mCurrentNode, mPathParts;
        var cols := list(p.fetch);
        p := jobResult(cols);
        WalkOn(w, list, node, parts, p, mCurrentNode, all);
      }
      ok := p == Resolved;
    }

    /** Runs the job from a collection to the end: it finds the names that lead to it. */
    method resolveCollection(w: World, list: Fetch -> seq<Collection>) returns (ok: bool)
      requires !mPathToId && mPathParts == [] && mCurrentNode == mColId
      requires Rooted(Parents(w)) && Serves(w, list)
      modifies this
      ensures ok <==> Exists(w, old(mColId))
      ensures ok ==> path() == Join(NamesTo(w, old(mColId)))
    {
      ghost var x := mColId;
      var p := doStart();
      if p.Next? && mCurrentNode !in w {
        p := jobResult(list(p.fetch));
        return false;
      }
      while p.Next?
        invariant !mPathToId && Exists(w, x)
        invariant p.Next? ==> mCurrentNode in w && p == Next(Base(mCurrentNode))
        invariant p == Resolved || p.Next?
        invariant NamesTo(w, x) == (if p.Next? then NamesTo(w, mCurrentNode) else []) + mPathParts
        decreases if p.Next? then Depth(Parents(w), mCurrentNode) else 0
      {
        DepthStep(Parents(w), mCurrentNode);
        p := jobResult(list(p.fetch));
      }
      assert NamesTo(w, x) == mPathParts;
      ok := true;
    }
  }

  /** How far the walk down has come. */
  ghost predicate Walked(w: World, p: Progress, node: Id, parts: seq<string>, result: Id, all: seq<string>)
    requires Rooted(Parents(w))
  {
    match p
    case Next(_) => Exists(w, node) && NamesTo(w, node) + parts == all
    case Resolved => Exists(w, result) && NamesTo(w, result) == all
    case Failed => forall x :: Exists(w, x) ==> NamesTo(w, x) != all
  }

  lemma WalkOn(w: World, list: Fetch -> seq<Collection>, node: Id, parts: seq<string>, p: Progress, next: Id,
          all: seq<string>)
    requires Rooted(Parents(w)) && UniqueSiblings(w) && Serves(w, list)
    requires Exists(w, node) && parts != [] && NamesTo(w, node) + parts == all
    requires p == Failed ==> forall c :: c in list(FirstLevel(node)) ==> c.Name() != parts[0]
    requires p != Failed ==> exists c :: c in list(FirstLevel(node)) && c.Name() == parts[0] && next == c.Uid()
    requires p == Resolved ==> parts[1..] == []
    ensures Walked(w, p, next, parts[1..], next, all)
  {
    assert parts == [parts[0]] + parts[1..];
    if p == Failed {
      NoSuchPath(w, list, node, parts, all);
    } else {
      StepDown(w, next, node);
      assert NamesTo(w, next) + parts[1..] == NamesTo(w, node) + parts;
    }
  }

  lemma StepDown(w: World, x: Id, p: Id)
    requires Rooted(Parents(w)) && x in w && w[x].parent == p
    ensures Exists(w, p) && NamesTo(w, x) == NamesTo(w, p) + [w[x].name]
  {
    DepthStep(Parents(w), x);
  }

  lemma NoChildNamed(w: World, list: Fetch -> seq<Collection>, node: Id, name: string)
    requires Serves(w, list) && forall c :: c in list(FirstLevel(node)) ==> c.Name() != name
    ensures forall y :: y in w && w[y].parent == node ==> w[y].name != name
  {
    forall y | y in w && w[y].parent == node ensures w[y].name != name {
      var c := Reported(w, y);
      assert c.Uid() == y && c in list(FirstLevel(node));
    }
  }

  /** A longer path through a node goes through a child with the next name. */
  lemma ChildOnPath(w: World, node: Id, parts: seq<string>, x: Id) returns (y: Id)
    requires Rooted(Parents(w)) && UniqueSiblings(w) && Exists(w, node) && Exists(w, x)
    requires parts != [] && NamesTo(w, x) == NamesTo(w, node) + parts
    ensures y in w && w[y].parent == node && w[y].name == parts[0]
  {
    var n := |NamesTo(w, node)|;
    y := AncestorAt(w, x, n + 1);
    StepDown(w, y, w[y].parent);
    assert NamesTo(w, w[y].parent) == NamesTo(w, y)[..n] == NamesTo(w, node);
    NamesInjective(w, w[y].parent, node);
    assert w[y].name == NamesTo(w, y)[n];
  }

  /** When no child has the next name, nothing has the whole path. */
  lemma NoSuchPath(w: World, list: Fetch -> seq<Collection>, node: Id, parts: seq<string>, all: seq<string>)
    requires Rooted(Parents(w)) && UniqueSiblings(w) && Serves(w, list) && Exists(w, node) && parts != []
    requires NamesTo(w, node) + parts == all
    requires forall c :: c in list(FirstLevel(node)) ==> c.Name() != parts[0]
    ensures forall x :: Exists(w, x) ==> NamesTo(w, x) != all
  {
    NoChildNamed(w, list, node, parts[0]);
    forall x | Exists(w, x) ensures NamesTo(w, x) != all {
      if NamesTo(w, x) == all {
        var y := ChildOnPath(w, node, parts, x);
        assert false;
      }
    }
  }

  /** The ancestor, or the collection itself, with the first n names. */
  lemma {:induction false} AncestorAt(w: World, x: Id, n: nat) returns (y: Id)
    requires Rooted(Parents(w)) && Exists(w, x) && 0 < n <= |NamesTo(w, x)|
    ensures y in w && NamesTo(w, y) == NamesTo(w, x)[..n]
    decreases Depth(Parents(w), x)
  {
    StepDown(w, x, w[x].parent);
    if n == |NamesTo(w, x)| {
      y := x;
    } else {
      DepthStep(Parents(w), x);
      y := AncestorAt(w, w[x].parent, n);
    }
  }

  // ------------------------------------------------------------------ there and back

  /** A collection the path leads to; by NamesInjective there is at most one. */
  ghost predicate LeadsTo(w: World, path: string, x: Id)
    requires Rooted(Parents(w))
  {
    Exists(w, x) && NamesTo(w, x) == Split(Normalized(path))
  }

  predicate SlashFree(s: string) {
    forall i :: 0 <= i < |s| ==> s[i] != SLASH
  }

  /** All names are free of slashes, the first and the last are not empty, and no name but the
      last ends in a backslash. */
  ghost predicate Restorable(parts: seq<string>) {
    && (forall i :: 0 <= i < |parts| ==> SlashFree(parts[i]))
    && (parts != [] ==> parts[0] != "" && parts[|parts| - 1] != "")
    && (forall k :: 0 <= k < |parts| - 1 ==> !EndsIn(parts[k], BACKSLASH))
  }

  lemma {:induction false} EscapePlain(s: string)
    requires SlashFree(s)
    ensures Escape(s) == s
  {
    if s != "" {
      assert SlashFree(s[1..]);
      EscapePlain(s[1..]);
    }
  }

  lemma EscapeAllPlain(parts: seq<string>)
    requires forall i :: 0 <= i < |parts| ==> SlashFree(parts[i])
    ensures EscapeAll(parts) == parts
  {
    forall i | 0 <= i < |parts| ensures EscapeAll(parts)[i] == parts[i] {
      EscapePlain(parts[i]);
    }
  }

  /** The ends of a joined list are slashes when a first or last empty part is not alone. */
  lemma {:induction false} JoinEnds(parts: seq<string>)
    requires parts != [] && forall i :: 0 <= i < |parts| ==> SlashFree(parts[i])
    ensures Join(parts) == "" <==> parts == [""]
    ensures parts != [""] ==> (Join(parts)[0] == SLASH <==> parts[0] == "")
    ensures parts != [""] ==> (EndsIn(Join(parts), SLASH) <==> parts[|parts| - 1] == "")
  {
    if |parts| == 1 {
      assert parts == [parts[0]];
    } else {
      JoinEnds(parts[1..]);
      var rest := Join(parts[1..]);
      assert Join(parts) == parts[0] + [SLASH] + rest;
      assert parts[1..][|parts| - 2] == parts[|parts| - 1];
    }
  }

  // ------------------------------------------------------------------ counting characters

  /** Unescaping never adds characters, and loses some if it finds anything to do. */
  lemma {:induction false} UnescapeShrinks(s: string)
    ensures |Unescape(s)| <= |s|
    ensures |Unescape(s)| == |s| ==> Unescape(s) == s && forall i :: 0 < i < |s| && s[i] == SLASH ==>
        s[i - 1] != BACKSLASH
  {
    if s != "" {
      if |s| >= 2 && s[0] == BACKSLASH && s[1] == SLASH {
        UnescapeShrinks(s[2..]);
      } else {
        UnescapeShrinks(s[1..]);
        var rest := s[1..];
        forall i | |Unescape(s)| == |s| && 0 < i < |s| && s[i] == SLASH ensures s[i - 1] != BACKSLASH {
          if i > 1 {
            assert rest[i - 1] == s[i] && rest[i - 2] == s[i - 1];
          }
        }
      }
    }
  }

  /** Slashes inside an element that has been read are escaped. */
  predicate Guarded(cur: string) {
    forall i :: 0 <= i < |cur| && cur[i] == SLASH ==> i > 0 && cur[i - 1] == BACKSLASH
  }

  lemma GuardedPart(cur: string)
    requires Guarded(cur)
    ensures |Unescape(cur)| <= |cur| && (|Unescape(cur)| == |cur| ==> SlashFree(Unescape(cur)))
  {
    UnescapeShrinks(cur);
  }

  /** Splitting and joining again never adds characters, and loses some if any element of the
      path has a slash in it. */
  lemma {:induction false} SplitShrinks(s: string, cur: string)
    requires Guarded(cur)
    ensures var r := SplitFrom(s, cur);
      && |Join(r)| <= |cur| + |s|
      && (|Join(r)| == |cur| + |s| ==> forall i :: 0 <= i < |r| ==> SlashFree(r[i]))
    decreases |s|
  {
    GuardedPart(cur);
    if s == "" {
    } else if s[0] == SLASH {
      SplitShrinks(s[1..], "");
      var r := SplitFrom(s[1..], "");
      assert SplitFrom(s, cur)[1..] == r;
      assert |Join(SplitFrom(s, cur))| == |Unescape(cur)| + 1 + |Join(r)|;
    } else if |s| > 2 && s[0] == BACKSLASH && s[1] == SLASH {
      SplitShrinks(s[2..], cur + s[..2]);
    } else {
      SplitShrinks(s[1..], cur + [s[0]]);
    }
  }

  /** A list of names that comes back from its path has lost no character on the way. */
  lemma NothingLost(parts: seq<string>)
    requires parts != [] && Split(Normalized(Join(parts))) == parts
    ensures Normalized(Join(parts)) == Join(parts)
    ensures forall i :: 0 <= i < |parts| ==> SlashFree(parts[i])
  {
    SplitShrinks(Normalized(Join(parts)), "");
    assert |Join(parts)| <= |Normalized(Join(parts))|;
  }

  lemma RestorableIff(parts: seq<string>)
    ensures Split(Normalized(Join(parts))) == parts <==> Restorable(parts)
  {
    if parts != [] {
      if Split(Normalized(Join(parts))) == parts {
        NothingLost(parts);
      }
      if forall i :: 0 <= i < |parts| ==> SlashFree(parts[i]) {
        EscapeAllPlain(parts);
        JoinEnds(parts);
        SplitInvertsJoin(parts);
      }
    }
  }

  /** Path round trip, for every tree: the path of a collection leads back to it if and only if
      all names on the path are free of slashes, the first and the last of them are not empty,
      and no collection above it has a name that ends in a backslash. */
  lemma PathRoundTrip(w: World, x: Id)
    requires Rooted(Parents(w)) && Exists(w, x)
    ensures LeadsTo(w, Join(NamesTo(w, x)), x) <==> Restorable(NamesTo(w, x))
  {
    RestorableIff(NamesTo(w, x));
  }

  // ------------------------------------------------------------------ outer delimiters

  /** Nothing, or one delimiter. */
  predicate IsDelimiter(s: string) {
    s == "" || s == [SLASH]
  }

  /** Of a delimiter at each end nothing remains, and what stands between them is left alone. */
  lemma BetweenDelimiters(s: string)
    ensures Normalized([SLASH] + s + [SLASH]) == s
  {
    var p := s + [SLASH];
    assert ([SLASH] + s + [SLASH])[1..] == p;
    assert p[..|p| - 1] == s;
  }

  lemma DelimitersStripped(s: string, pre: string, post: string)
    requires IsDelimiter(pre) && IsDelimiter(post)
    requires s != "" ==> s[0] != SLASH && !EndsIn(s, SLASH)
    ensures Normalized(pre + s + post) == s
  {
    var p := s + post;
    assert pre + s + post == pre + p;
    if pre == "" {
      assert pre + p == p;
      if s == "" {
        assert p == post && post[..0] == "";
      }
    } else {
      assert (pre + p)[1..] == p;
    }
    if post != "" {
      assert p[..|p| - 1] == s;
    } else {
      assert p == s;
    }
  }

  /** A path that can be restored leads to the same names with or without a delimiter at either
      end. */
  lemma DelimitedPath(parts: seq<string>, pre: string, post: string)
    requires Restorable(parts) && IsDelimiter(pre) && IsDelimiter(post)
    ensures Split(Normalized(pre + Join(parts) + post)) == parts
  {
    RestorableIff(parts);
    if parts == [] {
      DelimitersStripped("", pre, post);
    } else {
      JoinEnds(parts);
      DelimitersStripped(Join(parts), pre, post);
      NothingLost(parts);
    }
  }

  /** With its names escaped and a delimiter at each end, the path of a collection leads to it
      exactly if splitting undoes the joining of those names. */
  lemma EscapedPathLeads(w: World, x: Id)
    requires Rooted(Parents(w)) && Exists(w, x)
    ensures LeadsTo(w, [SLASH] + Join(EscapeAll(NamesTo(w, x))) + [SLASH], x) <==> Splittable(NamesTo(w, x))
  {
    BetweenDelimiters(Join(EscapeAll(NamesTo(w, x))));
    SplitInvertsJoin(NamesTo(w, x));
  }

  /** The job for the path of x, with or without a delimiter at either end, ends at x. */
  method ResolveDelimited(w: World, list: Fetch -> seq<Collection>, x: Id, path: string, pre: string, post: string)
          returns (found: bool, y: Id)
    requires Rooted(Parents(w)) && UniqueSiblings(w) && Serves(w, list) && Exists(w, x)
    requires Restorable(NamesTo(w, x)) && path == Join(NamesTo(w, x)) && IsDelimiter(pre) && IsDelimiter(post)
    ensures found && y == x
  {
    DelimitedPath(NamesTo(w, x), pre, post);
    var job := new CollectionPathResolver.FromPath(pre + path + post);
    found := job.resolvePath(w, list);
    y := job.mColId;
    if found {
      NamesInjective(w, x, y);
    }
  }

  /** With unique sibling names, whatever the path of x leads to is x exactly under that
      condition. */
  lemma LeadsBack(w: World, x: Id, y: Id)
    requires Rooted(Parents(w)) && UniqueSiblings(w) && Exists(w, x) && LeadsTo(w, Join(NamesTo(w, x)), y)
    ensures y == x <==> Restorable(NamesTo(w, x))
  {
    PathRoundTrip(w, x);
    if LeadsTo(w, Join(NamesTo(w, x)), x) {
      NamesInjective(w, x, y);
    }
  }

  /** Two jobs in a row, from a collection to its path and from that path to a collection: the
      collection found is the one started from exactly under that condition. */
  method ResolveBack(w: World, list: Fetch -> seq<Collection>, x: Id) returns (found: bool, y: Id)
    requires Rooted(Parents(w)) && UniqueSiblings(w) && Serves(w, list) && Exists(w, x)
    ensures found && y == x <==> Restorable(NamesTo(w, x))
  {
    var there := new CollectionPathResolver.FromCollection(x);
    var known := there.resolveCollection(w, list);
    var back := new CollectionPathResolver.FromPath(there.path());
    found := back.resolvePath(w, list);
    y := back.mColId;
    PathRoundTrip(w, x);
    if found {
      LeadsBack(w, x, y);
    }
  }
}
