/** `Find` of the filter package: a walk of a directory tree that prunes
    excluded directories, keeps the files that pass the include/exclude
    test, and returns their paths relative to the root, sorted. */
module FindFiles {
  import opened Paths
  import opened Glob
  import opened Filter
  import opened Sorting

  /** A directory tree held in memory. */
  datatype Node = File(name: string) | Dir(name: string, entries: seq<Node>)

  /** Entry names as a file system has them: non-empty and free of `/`. */
  predicate ValidEntries(entries: seq<Node>)
    decreases entries
  {
    forall i :: 0 <= i < |entries| ==> ValidNode(entries[i])
  }

  predicate ValidNode(node: Node)
    decreases node
  {
    node.name != "" && '/' !in node.name && (node.Dir? ==> ValidEntries(node.entries))
  }

  /** The path of entry `name` inside directory `dir`, where "" is the root
      of the walk itself. */
  function JoinPath(dir: string, name: string): (r: string)
    ensures dir != "" ==> HasPrefix(r, dir + "/")
    ensures dir == "" ==> r == name
  {
    if dir == "" then name else dir + "/" + name
  }

  /** The paths the walk emits for `entries` of directory `dir`, in walk
      order. */
  function Walk(dir: string, entries: seq<Node>, includes: seq<string>, excludes: seq<string>): seq<string>
    decreases entries
  {
    if entries == [] then []
    else
      Walk(dir, entries[..|entries| - 1], includes, excludes)
      + Visit(dir, entries[|entries| - 1], includes, excludes)
  }

  /** An excluded entry is skipped, and an excluded directory is not entered
      at all. A file is emitted when some include matches its path. */
  function Visit(dir: string, node: Node, includes: seq<string>, excludes: seq<string>): seq<string>
    decreases node
  {
    var p := JoinPath(dir, node.name);
    if AnyMatch(excludes, p) then []
    else
      match node
      case File(_) => if AnyMatch(includes, p) then [p] else []
      case Dir(_, es) => Walk(p, es, includes, excludes)
  }

  /** Every file path in the tree, unfiltered: the reference the walk is
      compared with. */
  function Leaves(dir: string, entries: seq<Node>): seq<string>
    decreases entries
  {
    if entries == [] then []
    else Leaves(dir, entries[..|entries| - 1]) + NodeLeaves(dir, entries[|entries| - 1])
  }

  function NodeLeaves(dir: string, node: Node): seq<string>
    decreases node
  {
    var p := JoinPath(dir, node.name);
    match node
    case File(_) => [p]
    case Dir(_, es) => Leaves(p, es)
  }

  /** Walks the entries of directory `dir`, entering the directories that
      no exclude matches. */
  method WalkEntries(dir: string, entries: seq<Node>, includes: seq<string>, excludes: seq<string>)
    returns (out: seq<string>)
    ensures out == Walk(dir, entries, includes, excludes)
    decreases entries
  {
    out := [];
    var i := 0;
    while i < |entries|
      invariant 0 <= i <= |entries|
      invariant out == Walk(dir, entries[..i], includes, excludes)
    {
      var node := entries[i];
      var p := JoinPath(dir, node.name);
      assert entries[..i + 1][..i] == entries[..i];
      var excluded := MatchAny(excludes, p);
      if !excluded {
        match node
        case File(_) =>
          var included := MatchAny(includes, p);
          if included {
            out := out + [p];
          }
        case Dir(_, es) =>
          assert node in entries;
          var below := WalkEntries(p, es, includes, excludes);
          out := out + below;
      }
      i := i + 1;
    }
    assert entries[..|entries|] == entries;
  }

  /** The file paths below `root` that pass the filter, relative to `root`,
      in sorted order. */
  method Find(root: seq<Node>, includes: seq<string>, excludes: seq<string>) returns (paths: seq<string>)
    ensures paths == SortStrings(Walk("", root, includes, excludes))
    ensures Sorted(paths)
    ensures multiset(paths) == multiset(Walk("", root, includes, excludes))
  {
    var found := WalkEntries("", root, includes, excludes);
    SortStringsSorts(found);
    paths := SortStrings(found);
  }

  /** Everything below directory `dir` has a path that starts with it. */
  lemma {:induction false} LeavesBelow(dir: string, entries: seq<Node>, x: string)
    requires dir != "" && x in Leaves(dir, entries)
    ensures HasPrefix(x, dir + "/")
    decreases entries
  {
    var init := entries[..|entries| - 1];
    var last := entries[|entries| - 1];
    if x in Leaves(dir, init) {
      LeavesBelow(dir, init, x);
    } else {
      NodeLeavesBelow(dir, last, x);
    }
  }

  lemma {:induction false} NodeLeavesBelow(dir: string, node: Node, x: string)
    requires dir != "" && x in NodeLeaves(dir, node)
    ensures HasPrefix(x, dir + "/")
    decreases node
  {
    var p := JoinPath(dir, node.name);
    if node.Dir? {
      LeavesBelow(p, node.entries, x);
      assert x[..|dir| + 1] == x[..|p| + 1][..|dir| + 1];
    }
  }

  /** The walk emits only file paths of the tree that pass the filter. */
  lemma {:induction false} WalkSound(dir: string, entries: seq<Node>, includes: seq<string>, excludes: seq<string>, x: string)
    requires x in Walk(dir, entries, includes, excludes)
    ensures x in Leaves(dir, entries) && Keep(x, includes, excludes)
    decreases entries
  {
    var init := entries[..|entries| - 1];
    var last := entries[|entries| - 1];
    if x in Walk(dir, init, includes, excludes) {
      WalkSound(dir, init, includes, excludes, x);
    } else {
      VisitSound(dir, last, includes, excludes, x);
    }
  }

  lemma {:induction false} VisitSound(dir: string, node: Node, includes: seq<string>, excludes: seq<string>, x: string)
    requires x in Visit(dir, node, includes, excludes)
    ensures x in NodeLeaves(dir, node) && Keep(x, includes, excludes)
    decreases node
  {
    if node.Dir? {
      WalkSound(JoinPath(dir, node.name), node.entries, includes, excludes, x);
    }
  }

  /** A path inside `dir` (any non-empty path when `dir` is the root) that
      starts the path of entry `name` at a `/` boundary is that entry's path,
      unless the name holds a `/`. */
  lemma AncestorIsEntry(dir: string, name: string, d: string)
    requires if dir == "" then d != "" else HasPrefix(d, dir + "/")
    requires HasPrefix(JoinPath(dir, name) + "/", d + "/")
    ensures |d| < |JoinPath(dir, name)| ==> '/' in name
    ensures |d| == |JoinPath(dir, name)| ==> d == JoinPath(dir, name)
  {
    var p := JoinPath(dir, name);
    if |d| < |p| {
      assert p[|d|] == (p + "/")[..|d| + 1][|d|] == '/';
      if dir == "" {
        assert name[|d|] == '/';
      } else {
        assert p == dir + "/" + name;
        assert name[|d| - |dir| - 1] == p[|d|];
      }
    } else if |d| == |p| {
      assert d == (p + "/")[..|d|];
    }
  }

  /** Two directories that both start path `x` at a `/` boundary: the
      shorter one starts the longer one at a `/` boundary too. */
  lemma PrefixesOfPath(x: string, p: string, d: string)
    requires HasPrefix(x, p + "/") && HasPrefix(x, d + "/")
    ensures |d| <= |p| ==> HasPrefix(p + "/", d + "/")
    ensures |d| > |p| ==> HasPrefix(d, p + "/")
  {
    if |d| <= |p| {
      assert (p + "/")[..|d| + 1] == x[..|p| + 1][..|d| + 1];
    } else {
      assert d[..|p| + 1] == x[..|d| + 1][..|p| + 1];
    }
  }

  /** The walk enters no excluded directory: no directory on the way from
      `dir` down to a path it emits is matched by an exclude. */
  lemma {:induction false} WalkNoExcludedAncestor(dir: string, entries: seq<Node>, includes: seq<string>, excludes: seq<string>,
                                                  x: string, d: string)
    requires ValidEntries(entries) && x in Walk(dir, entries, includes, excludes)
    requires if dir == "" then d != "" else HasPrefix(d, dir + "/")
    requires HasPrefix(x, d + "/")
    ensures !AnyMatch(excludes, d)
    decreases entries
  {
    var init := entries[..|entries| - 1];
    var last := entries[|entries| - 1];
    if x in Walk(dir, init, includes, excludes) {
      assert ValidEntries(init) by {
        forall i | 0 <= i < |init| ensures ValidNode(init[i]) {
          assert init[i] == entries[i];
        }
      }
      WalkNoExcludedAncestor(dir, init, includes, excludes, x, d);
    } else {
      VisitNoExcludedAncestor(dir, last, includes, excludes, x, d);
    }
  }

  lemma {:induction false} VisitNoExcludedAncestor(dir: string, node: Node, includes: seq<string>, excludes: seq<string>,
                                                   x: string, d: string)
    requires ValidNode(node) && x in Visit(dir, node, includes, excludes)
    requires if dir == "" then d != "" else HasPrefix(d, dir + "/")
    requires HasPrefix(x, d + "/")
    ensures !AnyMatch(excludes, d)
    decreases node
  {
    var p := JoinPath(dir, node.name);
    assert !AnyMatch(excludes, p);
    match node
    case File(_) =>
      assert x == p;
      assert HasPrefix(p + "/", d + "/") by {
        assert (p + "/")[..|d| + 1] == p[..|d| + 1];
      }
      AncestorIsEntry(dir, node.name, d);
      assert false;
    case Dir(_, es) =>
      WalkSound(p, es, includes, excludes, x);
      LeavesBelow(p, es, x);
      PrefixesOfPath(x, p, d);
      if |d| <= |p| {
        AncestorIsEntry(dir, node.name, d);
      } else {
        WalkNoExcludedAncestor(p, es, includes, excludes, x, d);
      }
  }

  /** Find prunes every excluded directory: nothing below a directory an
      exclude matches is found, whatever the exclude, even one such as "a"
      that matches the directory and none of its files. */
  lemma ExcludedDirPruned(root: seq<Node>, includes: seq<string>, excludes: seq<string>, d: string, x: string)
    requires ValidEntries(root) && d != "" && AnyMatch(excludes, d) && HasPrefix(x, d + "/")
    ensures x !in Walk("", root, includes, excludes)
    ensures x !in SortStrings(Walk("", root, includes, excludes))
  {
    if x in Walk("", root, includes, excludes) {
      WalkNoExcludedAncestor("", root, includes, excludes, x, d);
    }
    SortStringsSorts(Walk("", root, includes, excludes));
    assert x in multiset(SortStrings(Walk("", root, includes, excludes))) ==> x in multiset(Walk("", root, includes, excludes));
  }

  /** No directory strictly inside `dir` (any non-empty one when `dir` is
      the root) that `x` lies below is matched by an exclude. */
  ghost predicate NoExcludedAncestor(dir: string, x: string, excludes: seq<string>)
  {
    forall d :: (if dir == "" then d != "" else HasPrefix(d, dir + "/")) && HasPrefix(x, d + "/") ==>
      !AnyMatch(excludes, d)
  }

  /** The walk finds every file of the tree that passes the filter and lies
      in no excluded directory. */
  lemma {:induction false} WalkComplete(dir: string, entries: seq<Node>, includes: seq<string>, excludes: seq<string>, x: string)
    requires ValidEntries(entries) && x in Leaves(dir, entries) && Keep(x, includes, excludes)
    requires NoExcludedAncestor(dir, x, excludes)
    ensures x in Walk(dir, entries, includes, excludes)
    decreases entries
  {
    var init := entries[..|entries| - 1];
    var last := entries[|entries| - 1];
    if x in Leaves(dir, init) {
      assert ValidEntries(init) by {
        forall i | 0 <= i < |init| ensures ValidNode(init[i]) {
          assert init[i] == entries[i];
        }
      }
      WalkComplete(dir, init, includes, excludes, x);
    } else {
      VisitComplete(dir, last, includes, excludes, x);
    }
  }

  lemma {:induction false} VisitComplete(dir: string, node: Node, includes: seq<string>, excludes: seq<string>, x: string)
    requires ValidNode(node) && x in NodeLeaves(dir, node) && Keep(x, includes, excludes)
    requires NoExcludedAncestor(dir, x, excludes)
    ensures x in Visit(dir, node, includes, excludes)
    decreases node
  {
    var p := JoinPath(dir, node.name);
    match node
    case File(_) =>
    case Dir(_, es) =>
      LeavesBelow(p, es, x);
      assert !AnyMatch(excludes, p);
      forall d | HasPrefix(d, p + "/") && HasPrefix(x, d + "/") ensures !AnyMatch(excludes, d) {
        if dir != "" {
          assert d[..|dir| + 1] == d[..|p| + 1][..|dir| + 1];
        }
      }
      WalkComplete(p, es, includes, excludes, x);
  }

  /** What `Find` returns, exactly: the files of the tree that pass the
      filter and lie in no directory an exclude matches. */
  lemma FindExactly(root: seq<Node>, includes: seq<string>, excludes: seq<string>, x: string)
    requires ValidEntries(root)
    ensures x in SortStrings(Walk("", root, includes, excludes)) <==>
              x in Leaves("", root) && Keep(x, includes, excludes) &&
              forall d :: d != "" && HasPrefix(x, d + "/") ==> !AnyMatch(excludes, d)
  {
    var w := Walk("", root, includes, excludes);
    SortStringsSorts(w);
    assert x in SortStrings(w) <==> x in multiset(SortStrings(w));
    if x in w {
      WalkSound("", root, includes, excludes, x);
      forall d | d != "" && HasPrefix(x, d + "/") ensures !AnyMatch(excludes, d) {
        WalkNoExcludedAncestor("", root, includes, excludes, x, d);
      }
    } else if x in Leaves("", root) && Keep(x, includes, excludes) &&
              forall d :: d != "" && HasPrefix(x, d + "/") ==> !AnyMatch(excludes, d) {
      WalkComplete("", root, includes, excludes, x);
    }
  }

  /** Excluding a plain directory name such as "a" omits exactly that entry
      and every path below it, and nothing else an include matches. */
  lemma FindLiteralExclude(root: seq<Node>, includes: seq<string>, d: string, x: string)
    requires ValidEntries(root) && Literal(d) && d != "" && d[|d| - 1] != '/'
    ensures x in SortStrings(Walk("", root, includes, [d])) <==>
              x in Leaves("", root) && AnyMatch(includes, x) && x != d && !HasPrefix(x, d + "/")
  {
    FindExactly(root, includes, [d], x);
    forall y ensures AnyMatch([d], y) <==> y == d {
      LiteralMatchesItself(d, y);
      assert [d][0] == d;
    }
  }

  /** Excludes whose matches carry over to everything below a matched
      directory: with those, pruning a directory removes nothing the filter
      would have kept. Directory-anchored excludes such as "a/" are like this. */
  ghost predicate ExclusionInherited(excludes: seq<string>)
  {
    forall d, x :: AnyMatch(excludes, d) && HasPrefix(x, d + "/") ==> AnyMatch(excludes, x)
  }

  /** Filtering a list all of whose paths are excluded keeps nothing. */
  lemma {:induction false} KeptNone(paths: seq<string>, includes: seq<string>, excludes: seq<string>)
    requires forall i :: 0 <= i < |paths| ==> AnyMatch(excludes, paths[i])
    ensures Kept(paths, includes, excludes) == []
  {
    if paths != [] {
      KeptNone(paths[..|paths| - 1], includes, excludes);
    }
  }

  /** With such excludes the pruned walk is exactly the filter applied to
      all files of the tree. */
  lemma {:induction false} WalkIsFilesOverLeaves(dir: string, entries: seq<Node>, includes: seq<string>, excludes: seq<string>)
    requires ExclusionInherited(excludes) && ValidEntries(entries)
    ensures Walk(dir, entries, includes, excludes) == Kept(Leaves(dir, entries), includes, excludes)
    decreases entries
  {
    if entries != [] {
      var init := entries[..|entries| - 1];
      var last := entries[|entries| - 1];
      WalkIsFilesOverLeaves(dir, init, includes, excludes);
      VisitIsFilesOverLeaves(dir, last, includes, excludes);
      KeptConcat(Leaves(dir, init), NodeLeaves(dir, last), includes, excludes);
    }
  }

  lemma {:induction false} VisitIsFilesOverLeaves(dir: string, node: Node, includes: seq<string>, excludes: seq<string>)
    requires ExclusionInherited(excludes) && ValidNode(node)
    ensures Visit(dir, node, includes, excludes) == Kept(NodeLeaves(dir, node), includes, excludes)
    decreases node
  {
    var p := JoinPath(dir, node.name);
    match node
    case File(_) =>
      assert Kept([p], includes, excludes) == Kept([], includes, excludes) + (if Keep(p, includes, excludes) then [p] else []);
    case Dir(_, es) =>
      if AnyMatch(excludes, p) {
        var ls := Leaves(p, es);
        forall i | 0 <= i < |ls| ensures AnyMatch(excludes, ls[i]) {
          LeavesBelow(p, es, ls[i]);
        }
        KeptNone(ls, includes, excludes);
      } else {
        WalkIsFilesOverLeaves(p, es, includes, excludes);
      }
  }

  /** No directory in the tree is excluded, so the walk prunes nothing. */
  predicate NoDirExcluded(dir: string, entries: seq<Node>, excludes: seq<string>)
    decreases entries
  {
    forall i :: 0 <= i < |entries| ==> NoDirExcludedAt(dir, entries[i], excludes)
  }

  predicate NoDirExcludedAt(dir: string, node: Node, excludes: seq<string>)
    decreases node
  {
    node.Dir? ==>
      !AnyMatch(excludes, JoinPath(dir, node.name)) && NoDirExcluded(JoinPath(dir, node.name), node.entries, excludes)
  }

  /** Where no directory is excluded, the walk is the filter applied to all
      files of the tree, whatever the excludes. */
  lemma {:induction false} WalkWithoutPruning(dir: string, entries: seq<Node>, includes: seq<string>, excludes: seq<string>)
    requires NoDirExcluded(dir, entries, excludes)
    ensures Walk(dir, entries, includes, excludes) == Kept(Leaves(dir, entries), includes, excludes)
    decreases entries
  {
    if entries != [] {
      var init := entries[..|entries| - 1];
      var last := entries[|entries| - 1];
      assert NoDirExcluded(dir, init, excludes) by {
        forall i | 0 <= i < |init| ensures NoDirExcludedAt(dir, init[i], excludes) {
          assert init[i] == entries[i];
        }
      }
      WalkWithoutPruning(dir, init, includes, excludes);
      VisitWithoutPruning(dir, last, includes, excludes);
      KeptConcat(Leaves(dir, init), NodeLeaves(dir, last), includes, excludes);
    }
  }

  lemma {:induction false} VisitWithoutPruning(dir: string, node: Node, includes: seq<string>, excludes: seq<string>)
    requires NoDirExcludedAt(dir, node, excludes)
    ensures Visit(dir, node, includes, excludes) == Kept(NodeLeaves(dir, node), includes, excludes)
    decreases node
  {
    var p := JoinPath(dir, node.name);
    match node
    case File(_) =>
      assert Kept([p], includes, excludes) == Kept([], includes, excludes) + (if Keep(p, includes, excludes) then [p] else []);
    case Dir(_, es) =>
      WalkWithoutPruning(p, es, includes, excludes);
  }

  lemma {:induction false} WalkConcat(dir: string, a: seq<Node>, b: seq<Node>, includes: seq<string>, excludes: seq<string>)
    ensures Walk(dir, a + b, includes, excludes) == Walk(dir, a, includes, excludes) + Walk(dir, b, includes, excludes)
    decreases b
  {
    if b == [] {
      assert a + b == a;
    } else {
      var init, last := b[..|b| - 1], b[|b| - 1];
      var ab := a + b;
      assert ab[..|ab| - 1] == a + init && ab[|ab| - 1] == last;
      assert Walk(dir, ab, includes, excludes) == Walk(dir, a + init, includes, excludes) + Visit(dir, last, includes, excludes);
      WalkConcat(dir, a, init, includes, excludes);
      assert Walk(dir, b, includes, excludes) == Walk(dir, init, includes, excludes) + Visit(dir, last, includes, excludes);
      ConcatAssoc(Walk(dir, a, includes, excludes), Walk(dir, init, includes, excludes), Visit(dir, last, includes, excludes));
    }
  }

  lemma {:induction false} LeavesConcat(dir: string, a: seq<Node>, b: seq<Node>)
    ensures Leaves(dir, a + b) == Leaves(dir, a) + Leaves(dir, b)
    decreases b
  {
    if b == [] {
      assert a + b == a;
    } else {
      var init, last := b[..|b| - 1], b[|b| - 1];
      var ab := a + b;
      assert ab[..|ab| - 1] == a + init && ab[|ab| - 1] == last;
      assert Leaves(dir, ab) == Leaves(dir, a + init) + NodeLeaves(dir, last);
      LeavesConcat(dir, a, init);
      assert Leaves(dir, b) == Leaves(dir, init) + NodeLeaves(dir, last);
      ConcatAssoc(Leaves(dir, a), Leaves(dir, init), NodeLeaves(dir, last));
    }
  }

  /** An exclude naming a literal directory with a trailing `/` excludes
      that directory and everything below it. */
  lemma AnchoredExcludeInherited(d: string)
    requires Literal(d)
    ensures ExclusionInherited([d + "/"])
  {
    forall y, x | AnyMatch([d + "/"], y) && HasPrefix(x, y + "/") ensures AnyMatch([d + "/"], x) {
      AnchoredLiteralMatchesSubtree(d, y);
      AnchoredLiteralMatchesSubtree(d, x);
      assert x[..|d| + 1] == x[..|y| + 1][..|d| + 1];
    }
  }

  /** Excluding "d/" for a literal directory d removes from the result
      exactly the files at or below d: every other file the includes match
      is found. */
  lemma FindAnchoredExclude(root: seq<Node>, includes: seq<string>, d: string, x: string)
    requires Literal(d) && ValidEntries(root)
    ensures x in Walk("", root, includes, [d + "/"]) <==>
              x in Leaves("", root) && AnyMatch(includes, x) && !(x == d || HasPrefix(x, d + "/"))
  {
    AnchoredExcludeInherited(d);
    WalkIsFilesOverLeaves("", root, includes, [d + "/"]);
    KeptMember(Leaves("", root), includes, [d + "/"], x);
    AnchoredLiteralMatchesSubtree(d, x);
    assert AnyMatch([d + "/"], x) <==> Matches(d + "/", x) by {
      assert [d + "/"][0] == d + "/";
    }
  }

  /** `Find` without excludes returns every file an include matches. */
  lemma FindWithoutExcludes(root: seq<Node>, includes: seq<string>, x: string)
    ensures x in Walk("", root, includes, []) <==> x in Leaves("", root) && AnyMatch(includes, x)
  {
    NothingExcluded("", root);
    WalkWithoutPruning("", root, includes, []);
    KeptMember(Leaves("", root), includes, [], x);
  }

  lemma {:induction false} NothingExcluded(dir: string, entries: seq<Node>)
    ensures NoDirExcluded(dir, entries, [])
    decreases entries
  {
    forall i | 0 <= i < |entries| ensures NoDirExcludedAt(dir, entries[i], []) {
      if entries[i].Dir? {
        NothingExcluded(JoinPath(dir, entries[i].name), entries[i].entries);
      }
    }
  }
}
