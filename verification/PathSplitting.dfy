/** Splitting a collection path at its unescaped slashes (akonadi/collectionpathresolver.cpp,
    splitPath), and when that undoes joining escaped parts. */
module PathSplitting {

  const SLASH := '/'
  const BACKSLASH := '\\'

  /** Replaces every backslash-slash by a slash, from the left. */
  function Unescape(s: string): string {
    if s == "" then ""
    else if |s| >= 2 && s[0] == BACKSLASH && s[1] == SLASH then [SLASH] + Unescape(s[2..])
    else [s[0]] + Unescape(s[1..])
  }

  /** Splits what is left of a path, given the part of the current element already seen. An
      escaped slash is passed over, but not one that ends the path. */
  function SplitFrom(s: string, cur: string): (parts: seq<string>)
    ensures |parts| > 0
  {
    if s == "" then [Unescape(cur)]
    else if s[0] == SLASH then [Unescape(cur)] + SplitFrom(s[1..], "")
    else if |s| > 2 && s[0] == BACKSLASH && s[1] == SLASH then SplitFrom(s[2..], cur + s[..2])
    else SplitFrom(s[1..], cur + [s[0]])
  }

  function Split(path: string): seq<string> {
    if path == "" then [] else SplitFrom(path, "")
  }

  method splitPath(path: string) returns (rv: seq<string>)
    ensures rv == Split(path)
  {
    rv := [];
    if path == "" {
      return;
    }
    var begin := 0;
    var pathSize := |path|;
    var i := 0;
    while i < pathSize
      invariant 0 <= begin <= i <= pathSize
      invariant rv + SplitFrom(path[i..], path[begin..i]) == Split(path)
    {
      ghost var here, cur := path[i..], path[begin..i];
      if path[i] == SLASH {
        Regroup(rv, Unescape(cur), SplitFrom(here[1..], ""));
        assert here[1..] == path[i + 1..] && path[i + 1..i + 1] == "";
        rv := rv + [Unescape(path[begin..i])];
        begin := i + 1;
      } else {
        assert path[begin..i + 1] == cur + [here[0]] && here[1..] == path[i + 1..];
      }
      if i < pathSize - 2 && path[i] == BACKSLASH && path[i + 1] == SLASH {
        assert path[begin..i + 2] == cur + here[..2] && here[2..] == path[i + 2..];
        i := i + 1;
      }
      i := i + 1;
    }
    assert path[begin..i] == path[begin..];
    rv := rv + [Unescape(path[begin..])];
  }

  lemma Regroup(a: seq<string>, x: string, b: seq<string>)
    ensures a + ([x] + b) == (a + [x]) + b
  {
  }

  // ------------------------------------------------------------------ joining

  function Escape(s: string): string {
    if s == "" then ""
    else (if s[0] == SLASH then [BACKSLASH, SLASH] else [s[0]]) + Escape(s[1..])
  }

  function Join(parts: seq<string>): string {
    if parts == [] then "" else if |parts| == 1 then parts[0] else parts[0] + [SLASH] + Join(parts[1..])
  }

  function EscapeAll(parts: seq<string>): (r: seq<string>)
    ensures |r| == |parts| && forall i :: 0 <= i < |r| ==> r[i] == Escape(parts[i])
  {
    if parts == [] then [] else [Escape(parts[0])] + EscapeAll(parts[1..])
  }

  predicate EndsIn(s: string, c: char) {
    s != "" && s[|s| - 1] == c
  }

  lemma {:induction false} EscapeNoSlashFirst(s: string)
    ensures Escape(s) != "" ==> Escape(s)[0] != SLASH
    ensures Escape(s) == "" <==> s == ""
  {
  }

  lemma {:induction false} EscapeConcat(a: string, b: string)
    ensures Escape(a + b) == Escape(a) + Escape(b)
  {
    if a == "" {
      assert a + b == b;
    } else {
      assert (a + b)[1..] == a[1..] + b;
      EscapeConcat(a[1..], b);
    }
  }

  lemma {:induction false} UnescapeEscape(s: string)
    ensures Unescape(Escape(s)) == s
  {
    if s != "" {
      UnescapeEscape(s[1..]);
      EscapeNoSlashFirst(s[1..]);
      if s[0] == SLASH {
        assert Escape(s)[2..] == Escape(s[1..]);
      } else {
        assert Escape(s)[1..] == Escape(s[1..]);
      }
    }
  }

  /** One step of reading: an escaped slash with something behind it is taken as a pair, any
      other character that is not a slash by itself. */
  lemma ReadPair(tail: string, cur: string)
    requires tail != ""
    ensures SplitFrom([BACKSLASH, SLASH] + tail, cur) == SplitFrom(tail, cur + [BACKSLASH, SLASH])
  {
    var s := [BACKSLASH, SLASH] + tail;
    assert s[2..] == tail && s[..2] == [BACKSLASH, SLASH];
  }

  lemma ReadChar(c: char, tail: string, cur: string)
    requires c != SLASH && (c == BACKSLASH && |tail| > 1 ==> tail[0] != SLASH)
    ensures SplitFrom([c] + tail, cur) == SplitFrom(tail, cur + [c])
  {
    var s := [c] + tail;
    assert s[1..] == tail;
  }

  lemma Grouped(cur: string, a: string, b: string)
    ensures cur + a + b == cur + (a + b)
  {
  }

  /** Reading one escaped part that a separator follows: the separator counts unless the part
      ends in a backslash and something comes after the separator. */
  lemma {:induction false} ScanPart(p: string, rest: string, cur: string)
    ensures SplitFrom(Escape(p) + [SLASH] + rest, cur) ==
      if EndsIn(p, BACKSLASH) && rest != "" then SplitFrom(rest, cur + Escape(p) + [SLASH])
      else [Unescape(cur + Escape(p))] + SplitFrom(rest, "")
  {
    var s := Escape(p) + [SLASH] + rest;
    if p == "" {
      assert s == [SLASH] + rest && s[1..] == rest;
      assert cur + Escape(p) == cur;
    } else if p == [BACKSLASH] && rest != "" {
      assert Escape(p) == [BACKSLASH];
      assert s == [BACKSLASH, SLASH] + rest;
      ReadPair(rest, cur);
      assert cur + Escape(p) + [SLASH] == cur + [BACKSLASH, SLASH];
    } else {
      var first := Escape(p[..1]);
      var tail := Escape(p[1..]) + [SLASH] + rest;
      assert p == p[..1] + p[1..];
      EscapeConcat(p[..1], p[1..]);
      assert s == first + tail;
      ScanPart(p[1..], rest, cur + first);
      Grouped(cur, first, Escape(p[1..]));
      if p[0] == SLASH {
        assert first == [BACKSLASH, SLASH];
        ReadPair(tail, cur);
      } else {
        assert first == [p[0]];
        EscapeNoSlashFirst(p[1..]);
        ReadChar(p[0], tail, cur);
      }
    }
  }

  /** Reading the final part. */
  lemma {:induction false} ScanLast(p: string, cur: string)
    requires !EndsIn(p, SLASH)
    ensures SplitFrom(Escape(p), cur) == [Unescape(cur + Escape(p))]
  {
    if p == "" {
      assert cur + Escape(p) == cur;
    } else {
      var first := Escape(p[..1]);
      var tail := Escape(p[1..]);
      assert p == p[..1] + p[1..];
      EscapeConcat(p[..1], p[1..]);
      assert p[1..] != "" ==> p[1..][|p| - 2] == p[|p| - 1];
      ScanLast(p[1..], cur + first);
      Grouped(cur, first, tail);
      EscapeNoSlashFirst(p[1..]);
      if p[0] == SLASH {
        assert first == [BACKSLASH, SLASH];
        ReadPair(tail, cur);
      } else {
        assert first == [p[0]];
        ReadChar(p[0], tail, cur);
      }
    }
  }

  /** A path that ends in a slash, escaped or not, yields an empty last element. */
  lemma {:induction false} SlashAtEnd(s: string, cur: string)
    requires EndsIn(s, SLASH)
    ensures var r := SplitFrom(s, cur); r[|r| - 1] == ""
  {
    if s[0] == SLASH {
      if |s| == 1 {
        assert SplitFrom(s[1..], "") == [""];
      } else {
        SlashAtEnd(s[1..], "");
      }
    } else if |s| > 2 && s[0] == BACKSLASH && s[1] == SLASH {
      SlashAtEnd(s[2..], cur + s[..2]);
    } else {
      SlashAtEnd(s[1..], cur + [s[0]]);
    }
  }

  // ------------------------------------------------------------------ the exact condition

  /** No part but the last ends in a backslash, except the last but one before an empty last
      one; the last does not end in a slash; and the parts are not a single empty one. */
  predicate Splittable(parts: seq<string>) {
    && parts != [""]
    && (forall k :: 0 <= k < |parts| - 1 && EndsIn(parts[k], BACKSLASH) ==>
        k == |parts| - 2 && parts[|parts| - 1] == "")
    && (parts != [] ==> !EndsIn(parts[|parts| - 1], SLASH))
  }

  /** How many elements splitting finds. */
  function Found(parts: seq<string>): nat
    requires parts != []
  {
    if |parts| == 1 then 1
    else (if EndsIn(parts[0], BACKSLASH) && parts[1..] != [""] then 0 else 1) + Found(parts[1..])
  }

  lemma JoinEmpty(parts: seq<string>)
    requires parts != []
    ensures Join(EscapeAll(parts)) == "" <==> parts == [""]
  {
    EscapeNoSlashFirst(parts[0]);
  }

  lemma JoinStep(parts: seq<string>)
    requires |parts| > 1
    ensures Join(EscapeAll(parts)) == Escape(parts[0]) + [SLASH] + Join(EscapeAll(parts[1..]))
  {
    assert EscapeAll(parts)[1..] == EscapeAll(parts[1..]);
  }

  lemma {:induction false} FoundIs(parts: seq<string>, cur: string)
    requires parts != [] && !EndsIn(parts[|parts| - 1], SLASH)
    ensures |SplitFrom(Join(EscapeAll(parts)), cur)| == Found(parts)
  {
    if |parts| == 1 {
      ScanLast(parts[0], cur);
    } else {
      var rest := parts[1..];
      assert rest[|rest| - 1] == parts[|parts| - 1];
      JoinStep(parts);
      JoinEmpty(rest);
      ScanPart(parts[0], Join(EscapeAll(rest)), cur);
      FoundIs(rest, cur + Escape(parts[0]) + [SLASH]);
      FoundIs(rest, "");
    }
  }

  lemma {:induction false} FoundAll(parts: seq<string>)
    requires parts != [] && !EndsIn(parts[|parts| - 1], SLASH)
    ensures Found(parts) <= |parts|
    ensures parts != [""] ==> (Found(parts) == |parts| <==> Splittable(parts))
  {
    if |parts| > 1 {
      var rest := parts[1..];
      assert rest[|rest| - 1] == parts[|parts| - 1];
      FoundAll(rest);
      if rest == [""] {
        assert Splittable(parts);
      } else {
        assert Splittable(parts) <==> !EndsIn(parts[0], BACKSLASH) && Splittable(rest) by {
          SplittableStep(parts);
        }
      }
    }
  }

  lemma SplittableStep(parts: seq<string>)
    requires |parts| > 1 && parts[1..] != [""]
    ensures Splittable(parts) <==> !EndsIn(parts[0], BACKSLASH) && Splittable(parts[1..])
  {
    var rest := parts[1..];
    if Splittable(parts) {
      forall k | 0 <= k < |rest| - 1 && EndsIn(rest[k], BACKSLASH) ensures k == |rest| - 2 && rest[|rest| - 1] == "" {
        assert parts[k + 1] == rest[k];
      }
      if |parts| == 2 {
        assert rest == [parts[1]];
      }
    }
    if !EndsIn(parts[0], BACKSLASH) && Splittable(rest) {
      forall k | 0 <= k < |parts| - 1 && EndsIn(parts[k], BACKSLASH)
        ensures k == |parts| - 2 && parts[|parts| - 1] == ""
      {
        assert k > 0 && rest[k - 1] == parts[k];
      }
    }
  }

  lemma {:induction false} SplitsBack(parts: seq<string>)
    requires parts != [] && Splittable(parts)
    ensures SplitFrom(Join(EscapeAll(parts)), "") == parts
  {
    UnescapeEscape(parts[0]);
    assert "" + Escape(parts[0]) == Escape(parts[0]);
    if |parts| == 1 {
      ScanLast(parts[0], "");
    } else {
      var rest := parts[1..];
      JoinStep(parts);
      JoinEmpty(rest);
      ScanPart(parts[0], Join(EscapeAll(rest)), "");
      if rest == [""] {
        assert Join(EscapeAll(rest)) == "";
        assert parts == [parts[0], ""];
      } else {
        SplittableStep(parts);
        SplitsBack(rest);
        assert parts == [parts[0]] + rest;
      }
    }
  }

  lemma {:induction false} JoinEnd(parts: seq<string>)
    requires parts != [] && EndsIn(parts[|parts| - 1], SLASH)
    ensures EndsIn(Join(EscapeAll(parts)), SLASH)
  {
    if |parts| == 1 {
      var p := parts[0];
      assert p == p[..|p| - 1] + [SLASH];
      EscapeConcat(p[..|p| - 1], [SLASH]);
      assert Escape([SLASH]) == [BACKSLASH, SLASH];
    } else {
      var rest := parts[1..];
      assert rest[|rest| - 1] == parts[|parts| - 1];
      JoinStep(parts);
      JoinEnd(rest);
    }
  }

  /** Splitting undoes the joining of escaped parts exactly when the parts are splittable. */
  lemma SplitInvertsJoin(parts: seq<string>)
    ensures Split(Join(EscapeAll(parts))) == parts <==> Splittable(parts)
  {
    if parts != [] {
      var path := Join(EscapeAll(parts));
      JoinEmpty(parts);
      if EndsIn(parts[|parts| - 1], SLASH) {
        JoinEnd(parts);
        SlashAtEnd(path, "");
      } else if parts != [""] {
        FoundIs(parts, "");
        FoundAll(parts);
        if Splittable(parts) {
          SplitsBack(parts);
        }
      }
    }
  }
}
