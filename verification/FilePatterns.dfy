/**
 The include and exclude patterns of a filesystem backup, and what they make of a tree.
 `glob` is the shell-style match of one pattern against one name.
 */
module FilePatterns {
  import opened Common
  import opened Filesystem

  predicate MatchAny(glob: (string, string) -> bool, path: Path, patterns: seq<string>)
    requires path != []
  {
    exists i :: 0 <= i < |patterns| && Matches(glob, path, patterns[i])
  }

  predicate Matches(glob: (string, string) -> bool, path: Path, pattern: string)
    requires path != []
  {
    var rel := Rel(path);
    glob(pattern, rel) || glob(pattern, path[|path| - 1]) || rel == pattern || pattern + "/" <= rel
  }

  predicate Included(glob: (string, string) -> bool, includes: seq<string>, excludes: seq<string>, path: Path) {
    path == [] || ((includes == [] || MatchAny(glob, path, includes)) && !MatchAny(glob, path, excludes))
  }

  // ----- Which paths a pattern hits -----

  /** A pattern hits a path whose text or whose last name it matches shell-style, and every
      path at or below the one it names. */
  predicate Hits(glob: (string, string) -> bool, pattern: string, path: Path)
    requires path != []
  {
    || glob(pattern, Rel(path))
    || glob(pattern, path[|path| - 1])
    || exists i :: 0 < i <= |path| && pattern == Rel(path[..i])
  }

  lemma PrefixOfTwo(a: string, b: string, x: string, y: string)
    requires a + b <= x + y && |a| >= |x|
    ensures x <= a && a[|x|..] + b <= y
  {
    assert a + b == (x + y)[..|a + b|];
    assert (a + b)[..|x|] == x && (a + b)[|x|..] == a[|x|..] + b;
    assert (x + y)[|x|..] == y;
  }

  lemma SlashIsLater(pattern: string, path: Path)
    requires path != [] && ValidPath(path) && pattern + "/" <= Rel(path)
    ensures |path| > 1 && |pattern| >= |path[0]|
  {
    var p := path[0];
    assert ValidName(p) && Rel(path)[|pattern|] == '/';
    assert forall k :: 0 <= k < |p| ==> p[k] != '/' && Rel(path)[k] == p[k];
  }

  /** A text before a slash of a path's text is the text of a directory above it. */
  lemma {:induction false} BeforeSlash(pattern: string, path: Path) returns (i: nat)
    requires path != [] && ValidPath(path) && pattern + "/" <= Rel(path)
    ensures 0 < i < |path| && pattern == Rel(path[..i])
    decreases |path|
  {
    var p, rest := path[0], path[1..];
    SlashIsLater(pattern, path);
    assert Rel(path) == p + ("/" + Rel(rest));
    PrefixOfTwo(pattern, "/", p, "/" + Rel(rest));
    var tail := pattern[|p|..];
    assert pattern == p + tail;
    i := 1;
    assert path[..1] == [p];
    if tail != "" {
      assert (tail + "/")[0] == ("/" + Rel(rest))[0] == '/';
      PrefixOfTwo(tail, "/", "/", Rel(rest));
      var below := BeforeSlash(tail[1..], rest);
      i := below + 1;
      assert path[..i] == [p] + rest[..below] && path[..i][1..] == rest[..below];
      assert tail == "/" + tail[1..];
    }
  }

  lemma AboveIsBeforeSlash(path: Path, i: nat)
    requires 0 < i < |path|
    ensures Rel(path[..i]) + "/" <= Rel(path)
  {
    CoversBelow(path[..i], path);
  }

  lemma MatchesIffHits(glob: (string, string) -> bool, path: Path, pattern: string)
    requires path != [] && ValidPath(path)
    ensures Matches(glob, path, pattern) <==> Hits(glob, pattern, path)
  {
    assert path[..|path|] == path;
    if pattern + "/" <= Rel(path) {
      var i := BeforeSlash(pattern, path);
    }
    if i :| 0 < i <= |path| && pattern == Rel(path[..i]) {
      if i < |path| {
        AboveIsBeforeSlash(path, i);
      }
    }
  }

  /** A path is chosen when no exclude pattern hits it and, if there are include patterns,
      one of them does. */
  predicate Chosen(glob: (string, string) -> bool, includes: seq<string>, excludes: seq<string>, path: Path)
    requires path != []
  {
    && (forall j :: 0 <= j < |excludes| ==> !Hits(glob, excludes[j], path))
    && (includes == [] || exists j :: 0 <= j < |includes| && Hits(glob, includes[j], path))
  }

  lemma IncludedIffChosen(glob: (string, string) -> bool, includes: seq<string>, excludes: seq<string>, path: Path)
    requires path != [] && ValidPath(path)
    ensures Included(glob, includes, excludes, path) <==> Chosen(glob, includes, excludes, path)
  {
    forall j | 0 <= j < |includes| ensures Matches(glob, path, includes[j]) <==> Hits(glob, includes[j], path) {
      MatchesIffHits(glob, path, includes[j]);
    }
    forall j | 0 <= j < |excludes| ensures Matches(glob, path, excludes[j]) <==> Hits(glob, excludes[j], path) {
      MatchesIffHits(glob, path, excludes[j]);
    }
  }

  /** It and every directory above it are chosen. */
  ghost predicate AllChosen(glob: (string, string) -> bool, includes: seq<string>, excludes: seq<string>, s: Path) {
    forall i :: 0 < i <= |s| ==> Chosen(glob, includes, excludes, s[..i])
  }

  lemma {:induction false} FoundIsValid(node: Node, s: Path)
    requires ValidTree(node) && Lookup(node, s).Some?
    ensures ValidPath(s)
    decreases |s|
  {
    if s != [] {
      FoundIsValidIn(node.children, s);
    }
  }

  lemma {:induction false} FoundIsValidIn(cs: Children, s: Path)
    requires ValidChildren(cs) && s != [] && Find(cs, s[0]).Some? && Lookup(Find(cs, s[0]).value, s[1..]).Some?
    ensures ValidPath(s)
    decreases |s|, cs
  {
    if cs.name == s[0] {
      FoundIsValid(cs.node, s[1..]);
      assert s == [s[0]] + s[1..];
    } else {
      FoundIsValidIn(cs.rest, s);
    }
  }

  /** The walk keeps a node exactly when it is no socket, pipe or device and it and every
      directory above it are chosen. */
  lemma KeptIffChosen(glob: (string, string) -> bool, includes: seq<string>, excludes: seq<string>, node: Node, s: Path)
    requires ValidTree(node)
    ensures Kept(p => Included(glob, includes, excludes, p), [], node, s)
            <==> Lookup(node, s).Some? && !Lookup(node, s).value.Special? && AllChosen(glob, includes, excludes, s)
  {
    KeptIffAllIncluded(p => Included(glob, includes, excludes, p), [], node, s);
    if Lookup(node, s).Some? {
      FoundIsValid(node, s);
      forall i | 0 <= i <= |s|
        ensures [] + s[..i] == s[..i]
        ensures i > 0 ==> (Included(glob, includes, excludes, s[..i]) <==> Chosen(glob, includes, excludes, s[..i]))
      {
        if i > 0 {
          IncludedIffChosen(glob, includes, excludes, s[..i]);
        }
      }
    }
  }

  /** An exclude pattern that hits a path removes it and all below it, whatever is included. */
  lemma ExcludedIsGone(glob: (string, string) -> bool, includes: seq<string>, excludes: seq<string>,
                       node: Node, d: Path, s: Path, j: nat)
    requires ValidTree(node) && d != [] && d <= s && j < |excludes| && Hits(glob, excludes[j], d)
    ensures !Kept(p => Included(glob, includes, excludes, p), [], node, s)
  {
    KeptIffChosen(glob, includes, excludes, node, s);
    assert s[..|d|] == d;
  }

  /** No link is chosen together with all directories above it. */
  ghost predicate NoChosenLink(glob: (string, string) -> bool, includes: seq<string>, excludes: seq<string>,
                               source: Node) {
    forall s :: Lookup(source, s) == Some(Link) ==> !AllChosen(glob, includes, excludes, s)
  }

  /** A restored backup in terms of patterns: it succeeds unless a link is chosen, and then
      what comes back is what is chosen together with all directories above it. */
  lemma RestoreRebuildsIncluded(glob: (string, string) -> bool, includes: seq<string>, excludes: seq<string>,
                                base: string, source: Node, d: Disk, dest: Path)
    requires source.Dir? && ValidTree(source) && EmptyDestination(d, dest)
    ensures var q := Restore(d, Some(dest), Listing(p => Included(glob, includes, excludes, p), base, source));
            && (q.ok <==> NoChosenLink(glob, includes, excludes, source))
            && (q.ok ==> forall s :: s != [] ==>
                  At(q.disk, dest + s) ==
                    if AllChosen(glob, includes, excludes, s) then ItemOf(Lookup(source, s)) else None)
  {
    var inc := p => Included(glob, includes, excludes, p);
    RestoreRebuildsTree(inc, base, source, d, dest);
    forall s ensures Kept(inc, [], source, s) <==> Lookup(source, s).Some? && !Lookup(source, s).value.Special?
                                                   && AllChosen(glob, includes, excludes, s)
    {
      KeptIffChosen(glob, includes, excludes, source, s);
    }
  }

  // ----- Patterns and pruning -----

  lemma Slashes(a: string, b: string, c: string)
    ensures a + "/" + b + "/" + c == a + "/" + (b + "/" + c)
  {
  }

  lemma {:induction false} SplitBelow(d: Path, t: string)
    requires d != [] && ValidPath(d)
    ensures Split(Rel(d) + "/" + t, '/') == d + Split(t, '/')
  {
    if |d| == 1 {
      SplitJoined(d[0], '/', t);
      assert d == [d[0]];
    } else {
      var below := d[1..];
      SplitBelow(below, t);
      Slashes(d[0], Rel(below), t);
      SplitJoined(d[0], '/', Rel(below) + "/" + t);
      Assoc([d[0]], below, Split(t, '/'));
      assert d == [d[0]] + below;
    }
  }

  lemma {:induction false} RelBelow(d: Path, s: Path)
    requires d != [] && s != []
    ensures Rel(d + s) == Rel(d) + "/" + Rel(s)
  {
    if |d| == 1 {
      assert (d + s)[1..] == s;
    } else {
      RelBelow(d[1..], s);
      assert (d + s)[1..] == d[1..] + s;
    }
  }

  lemma CoversBelow(d: Path, p: Path)
    requires d != [] && d < p
    ensures Rel(d) + "/" <= Rel(p)
  {
    var s := p[|d|..];
    RelBelow(d, s);
    assert p == d + s;
  }

  lemma CoversOnlyBelow(d: Path, p: Path)
    requires d != [] && p != [] && ValidPath(d) && ValidPath(p)
    requires Rel(d) + "/" <= Rel(p)
    ensures d < p
  {
    var t := Rel(p)[|Rel(d)| + 1..];
    assert Rel(p) == Rel(d) + "/" + t;
    SplitBelow(d, t);
    SplitRel(p);
  }

  /** A pattern that is the path of a directory covers that directory and all below it, and
      beyond what the shell-style match adds, nothing else. */
  lemma PathPatternCoversSubtree(glob: (string, string) -> bool, d: Path, p: Path)
    requires d != [] && p != [] && ValidPath(d) && ValidPath(p)
    ensures Matches(glob, p, Rel(d)) <==> d <= p || glob(Rel(d), Rel(p)) || glob(Rel(d), p[|p| - 1])
  {
    if d < p {
      CoversBelow(d, p);
    } else if d != p {
      DistinctRels(d, p);
      if Rel(d) + "/" <= Rel(p) {
        CoversOnlyBelow(d, p);
      }
    }
  }

  /** Without patterns everything survives but sockets, pipes and devices. */
  lemma NoPatternsKeepAll(glob: (string, string) -> bool, node: Node, s: Path)
    ensures Kept(p => Included(glob, [], [], p), [], node, s)
            <==> Lookup(node, s).Some? && !Lookup(node, s).value.Special?
  {
    KeptIffAllIncluded(p => Included(glob, [], [], p), [], node, s);
  }

  /** An exclude pattern that is the path of a directory removes it and all below it,
      whatever the include patterns say. */
  lemma ExcludedDirectoryIsGone(glob: (string, string) -> bool, includes: seq<string>, excludes: seq<string>,
                                node: Node, d: Path, s: Path)
    requires d != [] && d <= s && ValidPath(d) && Rel(d) in excludes
    ensures !Kept(p => Included(glob, includes, excludes, p), [], node, s)
  {
    var k :| 0 <= k < |excludes| && excludes[k] == Rel(d);
    PathPatternCoversSubtree(glob, d, d);
    assert Matches(glob, d, excludes[k]);
    assert s[..|d|] == d;
    UnmatchedParentPrunes(glob, includes, excludes, node, s, |d|);
  }

  /** A pattern that names a directory below the top level archives nothing unless the
      directories above it match too. */
  lemma UnmatchedParentPrunes(glob: (string, string) -> bool, includes: seq<string>, excludes: seq<string>,
                              node: Node, s: Path, i: nat)
    requires 0 < i <= |s| && !Included(glob, includes, excludes, s[..i])
    ensures !Kept(p => Included(glob, includes, excludes, p), [], node, s)
  {
    KeptIffAllIncluded(p => Included(glob, includes, excludes, p), [], node, s);
    assert [] + s[..i] == s[..i];
  }

  /** The pattern "*.log" matches sub/app.log, and yet a tree with just that file backs up
      to an error, because the directory it lies in does not match. */
  lemma LogPatternExample(glob: (string, string) -> bool)
    requires glob("*.log", "app.log") && !glob("*.log", "sub")
    ensures Included(glob, ["*.log"], [], ["sub", "app.log"])
    ensures Walk(p => Included(glob, ["*.log"], [], p), [],
              Dir(Cons("sub", Dir(Cons("app.log", File([1]), Nil)), Nil))) == []
  {
    var patterns := ["*.log"];
    assert Matches(glob, ["sub", "app.log"], patterns[0]);
    assert !Matches(glob, ["sub"], patterns[0]);
    assert [] + ["sub"] == ["sub"];
  }

  /** Excluding "*.log" leaves the other file of a directory, and only that. */
  lemma ExcludeLogExample(glob: (string, string) -> bool)
    requires glob("*.log", "app.log") && !glob("*.log", "a.db")
    ensures Walk(p => Included(glob, [], ["*.log"], p), [],
              Dir(Cons("app.log", File([1]), Cons("a.db", File([2]), Nil)))) == [FileEntry("a.db", [2])]
  {
    var patterns := ["*.log"];
    assert Matches(glob, ["app.log"], patterns[0]);
    assert !Matches(glob, ["a.db"], patterns[0]);
    assert [] + ["app.log"] == ["app.log"] && [] + ["a.db"] == ["a.db"];
  }
}
