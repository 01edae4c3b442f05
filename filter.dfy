/** The path filter package: which paths a set of include and exclude globs
    keeps (`Files`), where a pattern's matches can start (`BasePath`), the
    smallest set of directories to watch for a list of patterns
    (`GetBasePaths`), and a pruned walk of a directory tree (`Find`). */
module Filter {
  import opened Paths
  import opened Glob

  // =====================================================================
  // Files

  predicate AnyMatch(patterns: seq<string>, path: string)
  {
    exists i :: 0 <= i < |patterns| && Matches(patterns[i], path)
  }

  /** The test both `Files` and `Find` apply to a path: some include matches
      it and no exclude does. With no includes nothing is kept. */
  predicate Keep(path: string, includes: seq<string>, excludes: seq<string>)
  {
    AnyMatch(includes, path) && !AnyMatch(excludes, path)
  }

  /** The paths `Files` keeps, in input order. */
  function Kept(paths: seq<string>, includes: seq<string>, excludes: seq<string>): seq<string>
  {
    if paths == [] then []
    else
      var last := paths[|paths| - 1];
      Kept(paths[..|paths| - 1], includes, excludes) + (if Keep(last, includes, excludes) then [last] else [])
  }

  /** The first pattern that does not parse, reported as a warning. */
  function FirstMalformed(patterns: seq<string>): (r: Option<string>)
    ensures r.None? <==> forall i :: 0 <= i < |patterns| ==> !Malformed(patterns[i])
    ensures r.Some? ==> exists i :: 0 <= i < |patterns| && patterns[i] == r.value && Malformed(r.value)
                                    && forall j :: 0 <= j < i ==> !Malformed(patterns[j])
  {
    if patterns == [] then None
    else if Malformed(patterns[0]) then Some(patterns[0])
    else
      var r := FirstMalformed(patterns[1..]);
      assert forall j :: 1 <= j < |patterns| ==> patterns[j] == patterns[1..][j - 1];
      r
  }

  /** Whether any of the patterns matches the path. */
  method MatchAny(patterns: seq<string>, path: string) returns (matched: bool)
    ensures matched <==> AnyMatch(patterns, path)
  {
    var i := 0;
    while i < |patterns|
      invariant 0 <= i <= |patterns|
      invariant forall j :: 0 <= j < i ==> !Matches(patterns[j], path)
    {
      if Matches(patterns[i], path) {
        return true;
      }
      i := i + 1;
    }
    return false;
  }

  /** Keeps the paths that match an include and no exclude, in input order.
      A malformed pattern matches nothing; the first one is returned as an
      error beside the complete result. */
  method Files(paths: seq<string>, includes: seq<string>, excludes: seq<string>)
    returns (kept: seq<string>, err: Option<string>)
    ensures kept == Kept(paths, includes, excludes)
    ensures err == FirstMalformed(includes + excludes)
  {
    kept := [];
    var i := 0;
    while i < |paths|
      invariant 0 <= i <= |paths|
      invariant kept == Kept(paths[..i], includes, excludes)
    {
      var included := MatchAny(includes, paths[i]);
      var excluded := MatchAny(excludes, paths[i]);
      assert paths[..i + 1][..i] == paths[..i];
      if included && !excluded {
        kept := kept + [paths[i]];
      }
      i := i + 1;
    }
    assert paths[..|paths|] == paths;
    err := FirstMalformed(includes + excludes);
  }

  lemma {:induction false} KeptMember(paths: seq<string>, includes: seq<string>, excludes: seq<string>, x: string)
    ensures x in Kept(paths, includes, excludes) <==> x in paths && Keep(x, includes, excludes)
  {
    if paths != [] {
      var init := paths[..|paths| - 1];
      KeptMember(init, includes, excludes, x);
      assert paths == init + [paths[|paths| - 1]];
    }
  }

  /** Filtering commutes with concatenation: the output keeps input order. */
  lemma {:induction false} KeptConcat(a: seq<string>, b: seq<string>, includes: seq<string>, excludes: seq<string>)
    ensures Kept(a + b, includes, excludes) == Kept(a, includes, excludes) + Kept(b, includes, excludes)
  {
    if b == [] {
      assert a + b == a;
    } else {
      var init, last := b[..|b| - 1], b[|b| - 1];
      var ab := a + b;
      assert ab[..|ab| - 1] == a + init && ab[|ab| - 1] == last;
      var tail := if Keep(last, includes, excludes) then [last] else [];
      assert Kept(ab, includes, excludes) == Kept(a + init, includes, excludes) + tail;
      assert Kept(b, includes, excludes) == Kept(init, includes, excludes) + tail;
      KeptConcat(a, init, includes, excludes);
      ConcatAssoc(Kept(a, includes, excludes), Kept(init, includes, excludes), tail);
    }
  }

  lemma {:induction false} KeptAll(paths: seq<string>, includes: seq<string>, excludes: seq<string>)
    requires forall i :: 0 <= i < |paths| ==> Keep(paths[i], includes, excludes)
    ensures Kept(paths, includes, excludes) == paths
  {
    if paths != [] {
      var init, last := paths[..|paths| - 1], paths[|paths| - 1];
      forall i | 0 <= i < |init| ensures Keep(init[i], includes, excludes) {
        assert init[i] == paths[i];
      }
      KeptAll(init, includes, excludes);
      InitLast(paths);
    }
  }

  /** Filtering the output again with the same patterns changes nothing. */
  lemma KeptIdempotent(paths: seq<string>, includes: seq<string>, excludes: seq<string>)
    ensures Kept(Kept(paths, includes, excludes), includes, excludes) == Kept(paths, includes, excludes)
  {
    var r := Kept(paths, includes, excludes);
    forall i | 0 <= i < |r| ensures Keep(r[i], includes, excludes) {
      KeptMember(paths, includes, excludes, r[i]);
    }
    KeptAll(r, includes, excludes);
  }

  /** Without include patterns nothing is kept, whatever the excludes. */
  lemma {:induction false} KeptNoIncludes(paths: seq<string>, excludes: seq<string>)
    ensures Kept(paths, [], excludes) == []
  {
    if paths != [] {
      KeptNoIncludes(paths[..|paths| - 1], excludes);
    }
  }

  /** Filters whose patterns agree on every path keep the same paths. */
  lemma {:induction false} KeptAgree(paths: seq<string>, inc1: seq<string>, exc1: seq<string>, inc2: seq<string>, exc2: seq<string>)
    requires forall x :: AnyMatch(inc1, x) == AnyMatch(inc2, x) && AnyMatch(exc1, x) == AnyMatch(exc2, x)
    ensures Kept(paths, inc1, exc1) == Kept(paths, inc2, exc2)
  {
    if paths != [] {
      KeptAgree(paths[..|paths| - 1], inc1, exc1, inc2, exc2);
    }
  }

  /** Leaving a malformed pattern out of a list changes no match. */
  lemma DropMalformed(ps: seq<string>, qs: seq<string>, m: string, x: string)
    requires Malformed(m)
    ensures AnyMatch(ps + [m] + qs, x) == AnyMatch(ps + qs, x)
  {
    var all := ps + [m] + qs;
    if AnyMatch(all, x) {
      var i :| 0 <= i < |all| && Matches(all[i], x);
      if i < |ps| {
        assert (ps + qs)[i] == all[i];
      } else {
        assert i > |ps|;
        assert (ps + qs)[i - 1] == all[i];
      }
    }
    if AnyMatch(ps + qs, x) {
      var i :| 0 <= i < |ps + qs| && Matches((ps + qs)[i], x);
      if i < |ps| {
        assert all[i] == (ps + qs)[i];
      } else {
        assert all[i + 1] == (ps + qs)[i];
      }
    }
  }

  /** A malformed exclude removes nothing: the result is the one without it,
      and an error is reported. */
  lemma MalformedExcludeIgnored(paths: seq<string>, includes: seq<string>, ex1: seq<string>, bad: string, ex2: seq<string>)
    requires Malformed(bad)
    ensures Kept(paths, includes, ex1 + [bad] + ex2) == Kept(paths, includes, ex1 + ex2)
    ensures FirstMalformed(includes + (ex1 + [bad] + ex2)).Some?
  {
    forall x ensures AnyMatch(ex1 + [bad] + ex2, x) == AnyMatch(ex1 + ex2, x) {
      DropMalformed(ex1, ex2, bad, x);
    }
    KeptAgree(paths, includes, ex1 + [bad] + ex2, includes, ex1 + ex2);
    var all := includes + (ex1 + [bad] + ex2);
    assert all[|includes| + |ex1|] == bad;
  }

  /** A malformed include contributes no match, and an error is reported. */
  lemma MalformedIncludeIgnored(paths: seq<string>, in1: seq<string>, bad: string, in2: seq<string>, excludes: seq<string>)
    requires Malformed(bad)
    ensures Kept(paths, in1 + [bad] + in2, excludes) == Kept(paths, in1 + in2, excludes)
    ensures FirstMalformed((in1 + [bad] + in2) + excludes).Some?
  {
    forall x ensures AnyMatch(in1 + [bad] + in2, x) == AnyMatch(in1 + in2, x) {
      DropMalformed(in1, in2, bad, x);
    }
    KeptAgree(paths, in1 + [bad] + in2, excludes, in1 + in2, excludes);
    var all := (in1 + [bad] + in2) + excludes;
    assert all[|in1|] == bad;
  }

  // =====================================================================
  // BasePath

  /** Characters that end the literal part of a pattern. */
  const WildChars: string := "*{}?[]"

  predicate HasWild(segment: string)
  {
    exists i :: 0 <= i < |segment| && segment[i] in WildChars
  }

  /** The index of the first segment holding a wildcard, or |xs| if none. */
  function FirstWild(xs: seq<string>): (k: nat)
    ensures k <= |xs|
    ensures k < |xs| ==> HasWild(xs[k])
    ensures forall j :: 0 <= j < k ==> !HasWild(xs[j])
  {
    if xs == [] then 0
    else if HasWild(xs[0]) then 0
    else
      var k := FirstWild(xs[1..]);
      assert forall j :: 1 <= j < k + 1 ==> xs[j] == xs[1..][j - 1];
      1 + k
  }

  /** How many leading segments of a pattern form its base directory: those
      before the first segment with a wildcard, or all but the last segment
      when there is no wildcard. */
  function BaseDepth(xs: seq<string>): (n: nat)
    requires |xs| >= 1
    ensures n < |xs|
    ensures forall j :: 0 <= j < n ==> !HasWild(xs[j])
    ensures n < |xs| - 1 ==> HasWild(xs[n])
  {
    var k := FirstWild(xs);
    if k < |xs| then k else |xs| - 1
  }

  /** Drops trailing slashes, keeping a lone "/". */
  function StripSlashes(s: string): (r: string)
    ensures s != "" ==> r != ""
    decreases |s|
  {
    if |s| > 1 && s[|s| - 1] == '/' then StripSlashes(s[..|s| - 1]) else s
  }

  /** The directory cleanup the base path needs: empty becomes ".", and
      trailing slashes go. */
  function Clean(dir: string): string
  {
    if dir == "" then "." else StripSlashes(dir)
  }

  /** The literal directory in front of the first wildcard segment; "."
      when there is none, so never empty. */
  function BasePath(pattern: string): (r: string)
    ensures r != ""
  {
    var xs := Split(pattern);
    var n := BaseDepth(xs);
    Clean(if n == 0 then "" else Join(xs[..n]) + "/")
  }

  lemma {:induction false} StripSlashesShape(s: string)
    requires s != ""
    ensures StripSlashes(s) != "" && HasPrefix(s, StripSlashes(s))
    ensures forall i :: |StripSlashes(s)| <= i < |s| ==> s[i] == '/'
    ensures |StripSlashes(s)| == 1 || StripSlashes(s)[|StripSlashes(s)| - 1] != '/'
    decreases |s|
  {
    if |s| > 1 && s[|s| - 1] == '/' {
      StripSlashesShape(s[..|s| - 1]);
    }
  }

  /** A path at or below directory `dir` (written with a trailing slash) is
      covered by the cleaned directory. */
  lemma CoversBelowDir(dir: string, path: string)
    requires dir != "" && dir[|dir| - 1] == '/' && path != ""
    requires HasPrefix(path, dir) || path + "/" == dir
    ensures Covers(StripSlashes(dir), path)
  {
    var r := StripSlashes(dir);
    StripSlashesShape(dir);
    assert path[0] == dir[0];
    if r != "/" {
      assert r[|r| - 1] != '/';
      assert |r| < |dir|;
      assert dir[..|r| + 1] == r + "/";
      if HasPrefix(path, dir) {
        assert path[..|r| + 1] == dir[..|r| + 1];
      } else if |path| > |r| {
        assert path[..|r| + 1] == dir[..|r| + 1];
      } else {
        assert path == dir[..|r|];
      }
    }
  }

  lemma AbsSplit(s: string)
    ensures IsAbs(s) <==> |Split(s)| >= 2 && Split(s)[0] == ""
  {
  }

  lemma NoWildIsLiteral(x: string)
    requires !HasWild(x)
    ensures Literal(x)
  {
    forall i | 0 <= i < |x| ensures x[i] !in GlobChars {
      assert x[i] !in WildChars;
    }
  }

  /** The base-path segments of a pattern reappear at the front of every
      path the pattern matches. */
  lemma LiteralPrefixOfMatch(pattern: string, path: string)
    requires Matches(pattern, path)
    ensures BaseDepth(Split(pattern)) <= |Split(path)|
    ensures Split(path)[..BaseDepth(Split(pattern))] == Split(pattern)[..BaseDepth(Split(pattern))]
  {
    var S := Split(pattern);
    var n := BaseDepth(S);
    var X := Split(path);
    var anchored := |pattern| > 0 && pattern[|pattern| - 1] == '/';
    var stem := if anchored then pattern[..|pattern| - 1] else pattern;
    var T := Split(stem);
    var ps := ParseSegments(T).value;
    if anchored {
      assert pattern == stem + "/";
      SplitTrailingSlash(stem);
      TakeConcat(T, [""], n);
    }
    assert n <= |T| && S[..n] == T[..n];
    ParseSegmentsShape(T);
    forall j | 0 <= j < n ensures ps[j] == Plain(Lits(T[..n][j])) {
      assert T[j] == S[j];
      NoWildIsLiteral(S[j]);
      ParseLiteral(T[j]);
    }
    if anchored {
      var k :| 1 <= k <= |X| && MatchSegments(ps, X[..k]);
      MatchLiteralPrefix(ps, X[..k], T[..n]);
      TakeTake(X, k, n);
    } else {
      MatchLiteralPrefix(ps, X, T[..n]);
    }
  }

  /** Every path a pattern matches, relative when the pattern is relative
      and absolute when it is absolute, lies at or below its base path. */
  lemma BasePathCoversMatches(pattern: string, path: string)
    requires Matches(pattern, path) && IsAbs(pattern) == IsAbs(path)
    ensures Covers(BasePath(pattern), path)
  {
    var S := Split(pattern);
    var n := BaseDepth(S);
    var X := Split(path);
    LiteralPrefixOfMatch(pattern, path);
    AbsSplit(pattern);
    AbsSplit(path);
    assert IsAbs(pattern) ==> n >= 1;
    if n > 0 {
      var D := Join(S[..n]);
      assert X[0] == S[0];
      assert S[0] == "" ==> IsAbs(pattern);
      assert path != "";
      JoinSplit(path);
      if |X| == n {
        assert X == S[..n];
        assert path + "/" == D + "/";
      } else {
        TakeDrop(X, n);
        JoinConcat(X[..n], X[n..]);
        var rest := Join(X[n..]);
        assert path == D + "/" + rest;
        assert (D + "/" + rest)[..|D| + 1] == D + "/";
      }
      CoversBelowDir(D + "/", path);
    }
  }

  lemma {:induction false} JoinAvoids(xs: seq<string>, c: char)
    requires |xs| >= 1 && c != '/'
    requires forall j :: 0 <= j < |xs| ==> c !in xs[j]
    ensures c !in Join(xs)
  {
    if |xs| > 1 {
      JoinAvoids(xs[1..], c);
    }
  }

  /** The base directory of a pattern, before cleanup, starts the pattern. */
  lemma BaseDirIsPrefix(pattern: string)
    requires BaseDepth(Split(pattern)) > 0
    ensures var S := Split(pattern);
      HasPrefix(pattern, StripSlashes(Join(S[..BaseDepth(S)]) + "/"))
  {
    var S := Split(pattern);
    var n := BaseDepth(S);
    var dir := Join(S[..n]) + "/";
    JoinSplit(pattern);
    assert S == S[..n] + S[n..];
    JoinConcat(S[..n], S[n..]);
    assert pattern == dir + Join(S[n..]);
    StripSlashesShape(dir);
    var r := StripSlashes(dir);
    assert pattern[..|dir|] == dir;
    assert pattern[..|r|] == dir[..|r|];
  }

  /** Literal segments joined and cleaned hold no wildcard. */
  lemma BaseDirLiteral(S: seq<string>, n: nat)
    requires 0 < n <= |S| && forall j :: 0 <= j < n ==> !HasWild(S[j])
    ensures !HasWild(StripSlashes(Join(S[..n]) + "/"))
  {
    var D := Join(S[..n]);
    var dir := D + "/";
    StripSlashesShape(dir);
    var r := StripSlashes(dir);
    forall c | c in WildChars ensures c !in D {
      forall j | 0 <= j < n ensures c !in S[..n][j] {
        assert !HasWild(S[j]);
      }
      JoinAvoids(S[..n], c);
    }
    forall i | 0 <= i < |r| ensures r[i] !in WildChars {
      assert r[i] == dir[i];
      if i < |D| {
        assert dir[i] == D[i] && D[i] in D;
      }
    }
  }

  /** The base path is "." or a prefix of the pattern free of wildcards. */
  lemma BasePathIsLiteralPrefix(pattern: string)
    ensures BasePath(pattern) == "." || HasPrefix(pattern, BasePath(pattern))
    ensures !HasWild(BasePath(pattern))
  {
    var S := Split(pattern);
    var n := BaseDepth(S);
    if n > 0 {
      BaseDirIsPrefix(pattern);
      BaseDirLiteral(S, n);
    } else {
      assert BasePath(pattern) == ".";
      assert !HasWild(".");
    }
  }

  lemma SplitTwo(a: string, b: string)
    requires '/' !in a && '/' !in b
    ensures Split(a + "/" + b) == [a, b]
  {
    SplitConcat(a, b);
    SplitSegment(a);
    SplitSegment(b);
  }

  lemma StripOneSlash(a: string)
    requires a != "" && '/' !in a
    ensures StripSlashes(a + "/") == a
  {
    assert (a + "/")[..|a|] == a;
    assert a[|a| - 1] in a;
  }

  /** A pattern of one segment has base ".". */
  lemma BaseOfSegment(a: string)
    requires '/' !in a
    ensures BasePath(a) == "."
  {
    SplitSegment(a);
  }

  /** A pattern whose first segment holds a wildcard has base ".". */
  lemma BaseOfWildFirst(a: string, rest: string)
    requires '/' !in a && HasWild(a)
    ensures BasePath(a + "/" + rest) == "."
  {
    SplitConcat(a, rest);
    SplitSegment(a);
  }

  /** A literal first segment followed by a last segment, or by a segment
      with a wildcard, is the base. */
  lemma BaseOfLiteralFirst(a: string, rest: string)
    requires a != "" && '/' !in a && !HasWild(a)
    requires |Split(rest)| == 1 || HasWild(Split(rest)[0])
    ensures BasePath(a + "/" + rest) == a
  {
    SplitConcat(a, rest);
    SplitSegment(a);
    var xs := Split(a + "/" + rest);
    assert xs[1..] == Split(rest);
    assert BaseDepth(xs) == 1;
    assert xs[..1] == [a];
    StripOneSlash(a);
  }

  /** Below the absolute root, a literal segment followed by a segment with
      a wildcard is the base. */
  lemma BaseOfAbsolute(a: string, b: string)
    requires a != "" && '/' !in a && !HasWild(a) && '/' !in b && HasWild(b)
    ensures BasePath("/" + a + "/" + b) == "/" + a
  {
    assert "/" + a + "/" + b == "" + "/" + (a + "/" + b);
    SplitConcat("", a + "/" + b);
    SplitTwo(a, b);
    var xs := Split("/" + a + "/" + b);
    assert xs == ["", a, b];
    assert !HasWild("");
    assert xs[1..] == [a, b] && [a, b][1..] == [b];
    assert BaseDepth(xs) == 2;
    assert xs[..2] == ["", a];
    assert Join(["", a]) == "/" + a;
    var d := "/" + a + "/";
    assert d[..|d| - 1] == "/" + a;
    assert StripSlashes(d) == StripSlashes("/" + a);
    assert ("/" + a)[|a|] == a[|a| - 1] && a[|a| - 1] in a;
  }

  /** The base paths of the patterns in the package's own table: a
      literal first segment. */
  lemma BasePathExamplesLiteral()
    ensures BasePath("foo") == "."
    ensures BasePath("test/foo") == "test"
    ensures BasePath("test/foo*") == "test"
    ensures BasePath("test/*.**") == "test"
  {
    BaseOfSegment("foo");
    BaseOfTestFoo();
    BaseOfTestFooStar();
    BaseOfTestStarDot();
  }

  lemma BaseOfTestFoo()
    ensures BasePath("test/foo") == "test"
  {
    assert !HasWild("test");
    assert "test/foo" == "test" + "/" + "foo";
    SplitSegment("foo");
    BaseOfLiteralFirst("test", "foo");
  }

  lemma BaseOfTestFooStar()
    ensures BasePath("test/foo*") == "test"
  {
    assert !HasWild("test");
    assert "test/foo*" == "test" + "/" + "foo*";
    assert "foo*"[3] == '*';
    SplitSegment("foo*");
    BaseOfLiteralFirst("test", "foo*");
  }

  lemma BaseOfTestStarDot()
    ensures BasePath("test/*.**") == "test"
  {
    assert !HasWild("test");
    assert "test/*.**" == "test" + "/" + "*.**";
    assert "*.**"[0] == '*';
    SplitSegment("*.**");
    BaseOfLiteralFirst("test", "*.**");
  }

  /** The rest of the table: a wildcard first segment. */
  lemma BasePathExamplesWild()
    ensures BasePath("**/*") == "."
    ensures BasePath("foo*/bar") == "."
  {
    assert "**"[0] == '*' && "foo*"[3] == '*';
    assert "**/*" == "**" + "/" + "*";
    BaseOfWildFirst("**", "*");
    assert "foo*/bar" == "foo*" + "/" + "bar";
    BaseOfWildFirst("foo*", "bar");
  }

  /** The rest of the table: a globstar below a literal directory. The
      absolute pattern of the table is in `WatchBaseExamplesAbsolute`. */
  lemma BasePathExamplesGlobstar()
    ensures BasePath("foo/**/bar") == "foo"
  {
    assert "foo/**/bar" == "foo" + "/" + ("**/bar");
    assert "**/bar" == "**" + "/" + "bar";
    assert "**"[0] == '*';
    assert !HasWild("foo");
    SplitTwo("**", "bar");
    BaseOfLiteralFirst("foo", "**/bar");
  }

  // =====================================================================
  // GetBasePaths

  /** Some entry of `acc` covers `b`. */
  predicate Covered(acc: seq<string>, b: string)
  {
    exists i :: 0 <= i < |acc| && Covers(acc[i], b)
  }

  /** No entry covers another, so in particular no entry repeats. */
  predicate Minimal(acc: seq<string>)
  {
    forall i, j :: 0 <= i < |acc| && 0 <= j < |acc| && i != j ==> !Covers(acc[i], acc[j])
  }

  predicate NonEmptyEntries(acc: seq<string>)
  {
    forall i :: 0 <= i < |acc| ==> acc[i] != ""
  }

  /** Removes the entries that `b` covers. The first of them is replaced by
      `b` in place; when there is none, and `b` has not been placed yet,
      `b` goes at the end. */
  function Displace(acc: seq<string>, b: string, placed: bool): seq<string>
  {
    if acc == [] then (if placed then [] else [b])
    else if Covers(b, acc[0]) then (if placed then [] else [b]) + Displace(acc[1..], b, true)
    else [acc[0]] + Displace(acc[1..], b, placed)
  }

  /** Adds one base path to the watch roots: nothing changes when an entry
      already covers it, otherwise it displaces the entries it covers. */
  function AddBase(acc: seq<string>, b: string): seq<string>
  {
    if Covered(acc, b) then acc else Displace(acc, b, false)
  }

  /** The watch roots after adding the base path of each pattern in turn. */
  function BasePathsOf(acc: seq<string>, patterns: seq<string>): seq<string>
    decreases patterns
  {
    if patterns == [] then acc else BasePathsOf(AddBase(acc, BasePath(patterns[0])), patterns[1..])
  }

  /** Adds one base path to the watch roots, scanning them in order. */
  method AppendBase(bases: seq<string>, b: string) returns (r: seq<string>)
    ensures r == AddBase(bases, b)
  {
    var i := 0;
    while i < |bases|
      invariant 0 <= i <= |bases|
      invariant forall j :: 0 <= j < i ==> !Covers(bases[j], b)
    {
      if Covers(bases[i], b) {
        return bases;
      }
      i := i + 1;
    }
    r := [];
    var placed := false;
    i := 0;
    while i < |bases|
      invariant 0 <= i <= |bases|
      invariant r + Displace(bases[i..], b, placed) == Displace(bases, b, false)
    {
      assert bases[i..][1..] == bases[i + 1..];
      if Covers(b, bases[i]) {
        if !placed {
          ConcatAssoc(r, [b], Displace(bases[i + 1..], b, true));
          r := r + [b];
          placed := true;
        }
      } else {
        ConcatAssoc(r, [bases[i]], Displace(bases[i + 1..], b, placed));
        r := r + [bases[i]];
      }
      i := i + 1;
    }
    if !placed {
      r := r + [b];
    }
  }

  /** Extends `bases` with the base path of every pattern, in order. */
  method GetBasePaths(bases: seq<string>, patterns: seq<string>) returns (r: seq<string>)
    ensures r == BasePathsOf(bases, patterns)
  {
    r := bases;
    var i := 0;
    while i < |patterns|
      invariant 0 <= i <= |patterns|
      invariant BasePathsOf(r, patterns[i..]) == BasePathsOf(bases, patterns)
    {
      assert patterns[i..][1..] == patterns[i + 1..];
      r := AppendBase(r, BasePath(patterns[i]));
      i := i + 1;
    }
  }

  /** What `Displace` keeps: the entries `b` does not cover, and `b` itself
      unless it has already been placed. */
  lemma {:induction false} DisplaceMembers(acc: seq<string>, b: string, placed: bool, x: string)
    ensures x in Displace(acc, b, placed) ==> (x in acc && !Covers(b, x)) || (x == b && !placed)
    ensures x in acc && !Covers(b, x) ==> x in Displace(acc, b, placed)
    ensures !placed ==> b in Displace(acc, b, placed)
  {
    if acc != [] {
      DisplaceMembers(acc[1..], b, placed, x);
      DisplaceMembers(acc[1..], b, true, x);
      if x in acc && x != acc[0] {
        assert x in acc[1..];
      }
    }
  }

  lemma MinimalCons(h: string, t: seq<string>)
    requires Minimal(t)
    requires forall y :: y in t ==> !Covers(h, y) && !Covers(y, h)
    ensures Minimal([h] + t)
  {
    var s := [h] + t;
    forall i, j | 0 <= i < |s| && 0 <= j < |s| && i != j ensures !Covers(s[i], s[j]) {
      if i == 0 {
        assert s[j] == t[j - 1];
      } else if j == 0 {
        assert s[i] == t[i - 1];
      } else {
        assert s[i] == t[i - 1] && s[j] == t[j - 1];
      }
    }
  }

  lemma MinimalTail(acc: seq<string>)
    requires Minimal(acc) && acc != []
    ensures Minimal(acc[1..])
    ensures forall y :: y in acc[1..] ==> !Covers(acc[0], y) && !Covers(y, acc[0])
  {
    var t := acc[1..];
    forall i, j | 0 <= i < |t| && 0 <= j < |t| && i != j ensures !Covers(t[i], t[j]) {
      assert t[i] == acc[i + 1] && t[j] == acc[j + 1];
    }
    forall y | y in t ensures !Covers(acc[0], y) && !Covers(y, acc[0]) {
      var k :| 0 <= k < |t| && t[k] == y;
      assert acc[k + 1] == y;
    }
  }

  lemma {:induction false} DisplaceMinimal(acc: seq<string>, b: string, placed: bool)
    requires Minimal(acc)
    requires forall y :: y in acc ==> !Covers(y, b)
    ensures Minimal(Displace(acc, b, placed))
  {
    if acc != [] {
      MinimalTail(acc);
      var t := acc[1..];
      if Covers(b, acc[0]) {
        DisplaceMinimal(t, b, true);
        if !placed {
          var rest := Displace(t, b, true);
          forall y | y in rest ensures !Covers(b, y) && !Covers(y, b) {
            DisplaceMembers(t, b, true, y);
          }
          MinimalCons(b, rest);
        }
      } else {
        DisplaceMinimal(t, b, placed);
        var rest := Displace(t, b, placed);
        forall y | y in rest ensures !Covers(acc[0], y) && !Covers(y, acc[0]) {
          DisplaceMembers(t, b, placed, y);
        }
        MinimalCons(acc[0], rest);
      }
    }
  }

  /** Every entry `Displace` keeps is non-empty when `b` and the old entries are. */
  lemma DisplaceNonEmpty(acc: seq<string>, b: string, placed: bool)
    requires b != "" && NonEmptyEntries(acc)
    ensures NonEmptyEntries(Displace(acc, b, placed))
  {
    var r := Displace(acc, b, placed);
    forall i | 0 <= i < |r| ensures r[i] != "" {
      DisplaceMembers(acc, b, placed, r[i]);
    }
  }

  /** Adding a base path keeps the roots minimal. */
  lemma AddBaseMinimal(acc: seq<string>, b: string)
    requires Minimal(acc)
    ensures Minimal(AddBase(acc, b))
  {
    if !Covered(acc, b) {
      forall y | y in acc ensures !Covers(y, b) {
        var k :| 0 <= k < |acc| && acc[k] == y;
      }
      DisplaceMinimal(acc, b, false);
    }
  }

  /** After adding `b`, `b` is covered, and whatever was covered still is. */
  lemma AddBaseCovers(acc: seq<string>, b: string, x: string)
    requires b != "" && NonEmptyEntries(acc)
    ensures Covered(AddBase(acc, b), b)
    ensures Covered(acc, x) ==> Covered(AddBase(acc, b), x)
    ensures NonEmptyEntries(AddBase(acc, b))
  {
    if !Covered(acc, b) {
      var r := Displace(acc, b, false);
      DisplaceMembers(acc, b, false, b);
      DisplaceNonEmpty(acc, b, false);
      var kb :| 0 <= kb < |r| && r[kb] == b;
      assert Covers(r[kb], b);
      if Covered(acc, x) {
        var k :| 0 <= k < |acc| && Covers(acc[k], x);
        var e := acc[k];
        DisplaceMembers(acc, b, false, e);
        if Covers(b, e) {
          CoversTransitive(b, e, x);
          assert Covers(r[kb], x);
        } else {
          var ke :| 0 <= ke < |r| && r[ke] == e;
          assert Covers(r[ke], x);
        }
      }
    }
  }

  /** Each root is a root that was there before or the added base path. */
  lemma AddBaseProvenance(acc: seq<string>, b: string, x: string)
    ensures x in AddBase(acc, b) ==> x in acc || x == b
  {
    DisplaceMembers(acc, b, false, x);
  }

  /** A base path that no root covers and that covers no root is appended,
      leaving the earlier roots in their order. */
  lemma {:induction false} DisplaceAppends(acc: seq<string>, b: string)
    requires forall y :: y in acc ==> !Covers(b, y)
    ensures Displace(acc, b, false) == acc + [b]
  {
    if acc != [] {
      DisplaceAppends(acc[1..], b);
      assert acc == [acc[0]] + acc[1..];
    }
  }

  /** The index of the first root that `b` covers, or `|acc|` if none. */
  function FirstCovered(acc: seq<string>, b: string): (k: nat)
    ensures k <= |acc|
    ensures forall j :: 0 <= j < k ==> !Covers(b, acc[j])
    ensures k < |acc| ==> Covers(b, acc[k])
  {
    if acc == [] then 0
    else if Covers(b, acc[0]) then 0
    else 1 + FirstCovered(acc[1..], b)
  }

  /** The roots that `b` does not cover, in their order. */
  function Uncovered(acc: seq<string>, b: string): (r: seq<string>)
    ensures forall x :: x in r <==> x in acc && !Covers(b, x)
    ensures |r| <= |acc|
  {
    if acc == [] then []
    else (if Covers(b, acc[0]) then [] else [acc[0]]) + Uncovered(acc[1..], b)
  }

  /** Once `b` has been placed, `Displace` only drops what `b` covers. */
  lemma {:induction false} DisplacePlaced(acc: seq<string>, b: string)
    ensures Displace(acc, b, true) == Uncovered(acc, b)
  {
    if acc != [] {
      DisplacePlaced(acc[1..], b);
    }
  }

  /** Where `Displace` puts `b` when it covers some root: in place of the
      first one, the roots before it unchanged and the later roots it covers
      dropped. */
  lemma {:induction false} DisplaceAt(acc: seq<string>, b: string, k: nat)
    requires k == FirstCovered(acc, b) && k < |acc|
    ensures Displace(acc, b, false) == acc[..k] + [b] + Uncovered(acc[k + 1..], b)
  {
    var t := acc[1..];
    if k == 0 {
      DisplacePlaced(t, b);
      assert acc[..0] + [b] == [b];
    } else {
      assert !Covers(b, acc[0]);
      assert FirstCovered(t, b) == k - 1;
      DisplaceAt(t, b, k - 1);
      assert t[k..] == acc[k + 1..];
      ConsSplit(acc, k, b, Uncovered(acc[k + 1..], b));
    }
  }

  /** `[acc[0]] + acc[1..][..k-1] + [b] + rest` regrouped. */
  lemma ConsSplit(acc: seq<string>, k: nat, b: string, rest: seq<string>)
    requires 0 < k < |acc|
    ensures [acc[0]] + (acc[1..][..k - 1] + [b] + rest) == acc[..k] + [b] + rest
  {
    assert acc[..k] == [acc[0]] + acc[1..][..k - 1];
  }

  /** Where `Displace` puts `b`: in place of the first root it covers, or at
      the end when it covers none. */
  lemma DisplaceOrder(acc: seq<string>, b: string)
    ensures var k := FirstCovered(acc, b);
      Displace(acc, b, false) ==
        if k == |acc| then acc + [b] else acc[..k] + [b] + Uncovered(acc[k + 1..], b)
  {
    var k := FirstCovered(acc, b);
    if k == |acc| {
      DisplaceAppends(acc, b);
    } else {
      DisplaceAt(acc, b, k);
    }
  }

  /** Adding a base path keeps the order of the roots: nothing changes when
      a root covers it; otherwise it takes the place of the first root it
      covers and the others it covers are dropped, or, covering none, it is
      appended. */
  lemma AddBaseOrder(acc: seq<string>, b: string)
    ensures Covered(acc, b) ==> AddBase(acc, b) == acc
    ensures !Covered(acc, b) ==>
              var k := FirstCovered(acc, b);
              AddBase(acc, b) == if k == |acc| then acc + [b] else acc[..k] + [b] + Uncovered(acc[k + 1..], b)
  {
    DisplaceOrder(acc, b);
  }

  /** Folding patterns in keeps the roots minimal and non-empty. */
  lemma {:induction false} BasePathsOfMinimal(acc: seq<string>, patterns: seq<string>)
    requires Minimal(acc) && NonEmptyEntries(acc)
    ensures Minimal(BasePathsOf(acc, patterns)) && NonEmptyEntries(BasePathsOf(acc, patterns))
    decreases patterns
  {
    if patterns != [] {
      var b := BasePath(patterns[0]);
      AddBaseMinimal(acc, b);
      AddBaseCovers(acc, b, b);
      BasePathsOfMinimal(AddBase(acc, b), patterns[1..]);
    }
  }

  /** What was covered before folding patterns in stays covered. */
  lemma {:induction false} BasePathsOfKeepsCovered(acc: seq<string>, patterns: seq<string>, x: string)
    requires NonEmptyEntries(acc) && Covered(acc, x)
    ensures Covered(BasePathsOf(acc, patterns), x)
    decreases patterns
  {
    if patterns != [] {
      var b := BasePath(patterns[0]);
      AddBaseCovers(acc, b, x);
      BasePathsOfKeepsCovered(AddBase(acc, b), patterns[1..], x);
    }
  }

  /** The base path of every pattern folded in is covered by some root. */
  lemma {:induction false} BasePathsOfCoversBases(acc: seq<string>, patterns: seq<string>, j: nat)
    requires NonEmptyEntries(acc) && j < |patterns|
    ensures Covered(BasePathsOf(acc, patterns), BasePath(patterns[j]))
    decreases patterns
  {
    var b := BasePath(patterns[0]);
    AddBaseCovers(acc, b, b);
    assert BasePathsOf(acc, patterns) == BasePathsOf(AddBase(acc, b), patterns[1..]);
    if j == 0 {
      BasePathsOfKeepsCovered(AddBase(acc, b), patterns[1..], b);
    } else {
      BasePathsOfCoversBases(AddBase(acc, b), patterns[1..], j - 1);
      assert patterns[1..][j - 1] == patterns[j];
    }
  }

  /** Folding adds no root that is not an earlier root or the base path of
      one of the patterns. */
  lemma {:induction false} BasePathsOfProvenance(acc: seq<string>, patterns: seq<string>, x: string)
    ensures x in BasePathsOf(acc, patterns) ==>
              x in acc || exists j :: 0 <= j < |patterns| && x == BasePath(patterns[j])
    decreases patterns
  {
    if patterns != [] {
      var b := BasePath(patterns[0]);
      var rest := patterns[1..];
      AddBaseProvenance(acc, b, x);
      BasePathsOfProvenance(AddBase(acc, b), rest, x);
      if x in BasePathsOf(acc, patterns) && x !in acc && x != b && x !in AddBase(acc, b) {
        var j :| 0 <= j < |rest| && x == BasePath(rest[j]);
        assert patterns[j + 1] == rest[j];
      }
    }
  }

  /** When the root "." is a watch root, every other root is absolute:
      "." covers every relative path. */
  lemma RootAloneAmongRelative(acc: seq<string>)
    requires Minimal(acc) && "." in acc
    ensures forall y :: y in acc && y != "." ==> IsAbs(y)
  {
    var k :| 0 <= k < |acc| && acc[k] == ".";
    forall y | y in acc && y != "." ensures IsAbs(y) {
      var m :| 0 <= m < |acc| && acc[m] == y;
      assert !Covers(acc[k], acc[m]);
    }
  }

  /** A non-empty root that covers "." is "." itself. */
  lemma CoversDot(e: string)
    requires e != "" && Covers(e, ".")
    ensures e == "."
  {
  }

  /** The watch roots computed from scratch have no duplicates and no root
      below another; when some pattern's base is ".", "." is a root and
      every other root is absolute. */
  lemma GetBasePathsMinimal(patterns: seq<string>)
    ensures Minimal(BasePathsOf([], patterns))
    ensures forall i, j :: 0 <= i < j < |BasePathsOf([], patterns)| ==>
              BasePathsOf([], patterns)[i] != BasePathsOf([], patterns)[j]
    ensures (exists j :: 0 <= j < |patterns| && BasePath(patterns[j]) == ".") ==>
              "." in BasePathsOf([], patterns) &&
              forall y :: y in BasePathsOf([], patterns) && y != "." ==> IsAbs(y)
  {
    var r := BasePathsOf([], patterns);
    BasePathsOfMinimal([], patterns);
    if exists j :: 0 <= j < |patterns| && BasePath(patterns[j]) == "." {
      var j :| 0 <= j < |patterns| && BasePath(patterns[j]) == ".";
      BasePathsOfCoversBases([], patterns, j);
      var k :| 0 <= k < |r| && Covers(r[k], ".");
      CoversDot(r[k]);
      RootAloneAmongRelative(r);
    }
  }

  /** Watching the roots misses no change: every path any of the patterns
      matches, on the same side of relative and absolute, lies at or below
      some root. */
  lemma WatchRootsCoverMatches(patterns: seq<string>, j: nat, path: string)
    requires j < |patterns|
    requires Matches(patterns[j], path) && IsAbs(patterns[j]) == IsAbs(path)
    ensures Covered(BasePathsOf([], patterns), path)
  {
    var r := BasePathsOf([], patterns);
    var b := BasePath(patterns[j]);
    BasePathsOfCoversBases([], patterns, j);
    BasePathsOfMinimal([], patterns);
    BasePathCoversMatches(patterns[j], path);
    var k :| 0 <= k < |r| && Covers(r[k], b);
    CoversTransitive(r[k], b, path);
  }

  /** The base paths the watch-root table uses. */
  lemma WatchBaseExamplesRelative()
    ensures BasePath("foo") == "." && BasePath("bar") == "." && BasePath("**") == "."
    ensures BasePath("foo/**") == "foo"
  {
    BaseOfSegment("foo");
    BaseOfSegment("bar");
    BaseOfSegment("**");
    BaseOfFooStar();
  }

  lemma BaseOfFooStar()
    ensures BasePath("foo/**") == "foo"
  {
    assert "foo/**" == "foo" + "/" + "**";
    assert !HasWild("foo");
    assert "**"[0] == '*';
    SplitSegment("**");
    BaseOfLiteralFirst("foo", "**");
  }

  lemma WatchBaseExamplesAbsolute()
    ensures BasePath("/voing/**") == "/voing" && BasePath("/bar/**") == "/bar"
  {
    assert "/" + "voing" + "/" + "**" == "/voing/**" && "/" + "voing" == "/voing";
    assert "/" + "bar" + "/" + "**" == "/bar/**" && "/" + "bar" == "/bar";
    assert !HasWild("bar") && !HasWild("voing");
    assert "**"[0] == '*';
    BaseOfAbsolute("voing", "**");
    BaseOfAbsolute("bar", "**");
  }

  /** Adding bases one at a time, as the watch-root table does. */
  lemma AddBaseExamples()
    ensures AddBase([], ".") == ["."] && AddBase(["."], ".") == ["."]
    ensures AddBase([], "foo") == ["foo"] && AddBase(["foo"], ".") == ["."]
    ensures AddBase(["."], "/voing") == [".", "/voing"] && AddBase(["."], "/bar") == [".", "/bar"]
  {
    assert Covers(".", ".");
    assert !Covers("foo", ".") && Covers(".", "foo");
    assert Displace(["foo"], ".", false) == ["."];
    assert !Covers(".", "/voing") && !Covers("/voing", ".");
    assert !Covers(".", "/bar") && !Covers("/bar", ".");
  }

  /** Relative patterns whose bases collapse into ".". */
  lemma GetBasePathsExamplesRelative()
    ensures BasePathsOf([], ["foo"]) == ["."]
    ensures BasePathsOf([], ["foo", "bar"]) == ["."]
    ensures BasePathsOf([], ["foo/**", "**"]) == ["."]
  {
    WatchBaseExamplesRelative();
    AddBaseExamples();
    BasePathsOfFooBar();
    BasePathsOfFooStar();
  }

  lemma BasePathsOfFooBar()
    requires BasePath("foo") == "." && BasePath("bar") == "."
    requires AddBase([], ".") == ["."] && AddBase(["."], ".") == ["."]
    ensures BasePathsOf([], ["foo", "bar"]) == ["."]
  {
    assert ["foo", "bar"][1..] == ["bar"];
  }

  lemma BasePathsOfFooStar()
    requires BasePath("foo/**") == "foo" && BasePath("**") == "."
    requires AddBase([], "foo") == ["foo"] && AddBase(["foo"], ".") == ["."]
    ensures BasePathsOf([], ["foo/**", "**"]) == ["."]
  {
    assert ["foo/**", "**"][1..] == ["**"];
  }

  /** An absolute base stays beside ".", after it. */
  lemma GetBasePathsExamplesVoing()
    ensures BasePathsOf([], ["foo", "bar", "/voing/**"]) == [".", "/voing"]
  {
    assert ["foo", "bar", "/voing/**"][1..] == ["bar", "/voing/**"];
    assert ["bar", "/voing/**"][1..] == ["/voing/**"];
    WatchBaseExamplesRelative();
    WatchBaseExamplesAbsolute();
    AddBaseExamples();
  }

  /** A later "." replaces "foo" in place; "/bar" then follows it. */
  lemma GetBasePathsExamplesBar()
    ensures BasePathsOf([], ["foo/**", "**", "/bar/**"]) == [".", "/bar"]
  {
    assert ["foo/**", "**", "/bar/**"][1..] == ["**", "/bar/**"];
    assert ["**", "/bar/**"][1..] == ["/bar/**"];
    WatchBaseExamplesRelative();
    WatchBaseExamplesAbsolute();
    AddBaseExamples();
  }
}
