/** The filter package's own test tables, stated over the model. */
module FilterExamples {
  import opened Paths
  import opened Glob
  import opened Filter
  import opened Sorting
  import opened FindFiles

  /** The file list the `Files` table filters. */
  const Sources: seq<string> := ["main.cpp", "main.go", "main.h", "foo.go", "bar.py"]

  /** `*` followed by a literal suffix matches the one-segment paths with
      that suffix. */
  lemma StarSuffixMatches(suf: string, path: string)
    requires Literal(suf) && '/' !in suf
    ensures Matches("*" + suf, path) <==> '/' !in path && |suf| <= |path| && HasSuffix(path, suf)
  {
    assert "" + "*" + suf == "*" + suf;
    AffixMatches("", suf, path);
  }

  /** A literal prefix followed by `*` matches the one-segment paths with
      that prefix. */
  lemma PrefixStarMatches(pre: string, path: string)
    requires Literal(pre) && '/' !in pre
    ensures Matches(pre + "*", path) <==> '/' !in path && |pre| <= |path| && HasPrefix(path, pre)
  {
    assert pre + "*" + "" == pre + "*";
    AffixMatches(pre, "", path);
  }

  lemma OneMatch(p: string, x: string)
    ensures AnyMatch([p], x) <==> Matches(p, x)
  {
    assert [p][0] == p;
  }

  /** Two well-formed patterns, as includes and excludes in either order,
      report no error. */
  lemma WellFormedPair(a: string, b: string)
    requires !Malformed(a) && !Malformed(b)
    ensures FirstMalformed([a] + [b]) == None
    ensures FirstMalformed([a] + []) == None && FirstMalformed([] + [a]) == None
  {
    assert [a] + [b] == [a, b] && [a] + [] == [a] && [] + [a] == [a];
  }

  lemma StarWellFormed()
    ensures !Malformed("*") && !Malformed("**/*")
  {
    ParseStar();
    ParseGlobstarStar();
  }

  lemma GoWellFormed()
    ensures !Malformed("*.go")
  {
    GoSuffix("main.go");
    assert "main.go"[4..] == ".go";
  }

  lemma MainWellFormed()
    ensures !Malformed("main.*") && !Malformed("*.cpp")
  {
    MainGo();
    OneMatch("main.*", "main.go");
    CppWellFormed();
  }

  lemma CppWellFormed()
    ensures !Malformed("*.cpp")
  {
    assert "*.cpp" == "*" + ".cpp";
    assert Literal(".cpp") by {
      var suf, g := ".cpp", GlobChars;
      assert g == ['*', '?', '['];
      forall i | 0 <= i < |suf| ensures suf[i] !in g {
        assert suf[i] in {'.', 'c', 'p'};
      }
    }
    StarSuffixMatches(".cpp", "x.cpp");
    assert "x.cpp"[1..] == ".cpp";
  }

  /** Without includes nothing is kept, with or without excludes, and no
      error is reported. */
  lemma FilesExamplesNoIncludes()
    ensures Kept(Sources, [], ["*"]) == [] && FirstMalformed([] + ["*"]) == None
    ensures Kept(Sources, [], []) == [] && FirstMalformed([] + []) == None
  {
    KeptNoIncludes(Sources, ["*"]);
    KeptNoIncludes(Sources, []);
    StarWellFormed();
    WellFormedPair("*", "*");
  }

  /** `*` keeps every one-segment name, and no error is reported. */
  lemma FilesExampleStar()
    ensures Kept(Sources, ["*"], []) == Sources
    ensures FirstMalformed(["*"] + []) == None
  {
    StarWellFormed();
    WellFormedPair("*", "*");
    StarKeepsSources();
  }

  lemma StarKeepsSources()
    ensures Kept(Sources, ["*"], []) == Sources
  {
    forall i | 0 <= i < |Sources| ensures Keep(Sources[i], ["*"], []) {
      OneMatch("*", Sources[i]);
      StarMatchesOneSegment(Sources[i]);
    }
    KeptAll(Sources, ["*"], []);
  }

  /** The malformed exclude "[[" removes nothing, and an error is reported. */
  lemma FilesExampleMalformedExclude()
    ensures Kept(Sources, ["*"], ["[["]) == Sources
    ensures FirstMalformed(["*", "[["]).Some?
  {
    assert '[' in "[[" && ']' !in "[[";
    UnclosedClassIsMalformed("[[");
    var none: seq<string> := [];
    MalformedExcludeIgnored(Sources, ["*"], none, "[[", none);
    assert none + ["[["] + none == ["[["] && none + none == none;
    assert ["*"] + ["[["] == ["*", "[["];
    StarKeepsSources();
  }

  // A globstar followed by a star keeps paths of every depth, relative or
  // absolute.
  lemma FilesExampleGlobstarStar()
    ensures Kept(["foo", "/test/foo", "/test/foo.go"], ["**/*"], []) == ["foo", "/test/foo", "/test/foo.go"]
    ensures FirstMalformed(["**/*"] + []) == None
  {
    StarWellFormed();
    WellFormedPair("**/*", "**/*");
    var ps := ["foo", "/test/foo", "/test/foo.go"];
    forall i | 0 <= i < |ps| ensures Keep(ps[i], ["**/*"], []) {
      OneMatch("**/*", ps[i]);
      GlobstarStarMatchesAll(ps[i]);
    }
    KeptAll(ps, ["**/*"], []);
  }

  lemma KeptOne(x: string, includes: seq<string>, excludes: seq<string>)
    ensures Kept([x], includes, excludes) == if Keep(x, includes, excludes) then [x] else []
  {
    assert [x][..0] == [];
  }

  function KeptIf(x: string, includes: seq<string>, excludes: seq<string>): (r: seq<string>)
    ensures r == [] || r == [x]
  {
    if Keep(x, includes, excludes) then [x] else []
  }

  /** Filtering five names one at a time. */
  lemma KeptFive(a: string, b: string, c: string, d: string, e: string, includes: seq<string>, excludes: seq<string>)
    ensures Kept([a, b, c, d, e], includes, excludes)
            == KeptIf(a, includes, excludes) + KeptIf(b, includes, excludes) + KeptIf(c, includes, excludes)
               + KeptIf(d, includes, excludes) + KeptIf(e, includes, excludes)
  {
    assert [a, b, c, d, e] == [a] + [b] + [c] + [d] + [e];
    KeptConcat([a] + [b] + [c] + [d], [e], includes, excludes);
    KeptConcat([a] + [b] + [c], [d], includes, excludes);
    KeptConcat([a] + [b], [c], includes, excludes);
    KeptConcat([a], [b], includes, excludes);
    KeptOne(a, includes, excludes);
    KeptOne(b, includes, excludes);
    KeptOne(c, includes, excludes);
    KeptOne(d, includes, excludes);
    KeptOne(e, includes, excludes);
  }

  lemma GoSuffix(path: string)
    ensures Matches("*.go", path) <==> '/' !in path && |path| >= 3 && HasSuffix(path, ".go")
  {
    assert "*.go" == "*" + ".go";
    StarSuffixMatches(".go", path);
  }

  lemma KeepUnlessGo(x: string)
    requires '/' !in x
    ensures Keep(x, ["*"], ["*.go"]) <==> !(|x| >= 3 && HasSuffix(x, ".go"))
  {
    OneMatch("*", x);
    StarMatchesOneSegment(x);
    OneMatch("*.go", x);
    GoSuffix(x);
  }

  lemma KeptIfGo(x: string)
    requires '/' !in x
    ensures KeptIf(x, ["*"], ["*.go"]) == if |x| >= 3 && HasSuffix(x, ".go") then [] else [x]
  {
    KeepUnlessGo(x);
  }

  lemma GoCpp()
    ensures KeptIf("main.cpp", ["*"], ["*.go"]) == ["main.cpp"]
  {
    KeptIfGo("main.cpp");
    assert "main.cpp"[5..][0] != ".go"[0];
  }

  lemma GoGo()
    ensures KeptIf("main.go", ["*"], ["*.go"]) == [] && KeptIf("foo.go", ["*"], ["*.go"]) == []
  {
    KeptIfGo("main.go");
    assert "main.go"[4..] == ".go";
    KeptIfGo("foo.go");
    assert "foo.go"[3..] == ".go";
  }

  lemma GoH()
    ensures KeptIf("main.h", ["*"], ["*.go"]) == ["main.h"]
  {
    KeptIfGo("main.h");
    assert "main.h"[3..][2] != ".go"[2];
  }

  lemma GoPy()
    ensures KeptIf("bar.py", ["*"], ["*.go"]) == ["bar.py"]
  {
    KeptIfGo("bar.py");
    assert "bar.py"[3..][1] != ".go"[1];
  }

  /** Filtering five names one at a time, given the outcome for each. */
  lemma KeptFiveOf(a: string, b: string, c: string, d: string, e: string, includes: seq<string>, excludes: seq<string>,
                   ra: seq<string>, rb: seq<string>, rc: seq<string>, rd: seq<string>, re: seq<string>)
    requires KeptIf(a, includes, excludes) == ra && KeptIf(b, includes, excludes) == rb
    requires KeptIf(c, includes, excludes) == rc && KeptIf(d, includes, excludes) == rd
    requires KeptIf(e, includes, excludes) == re
    ensures Kept([a, b, c, d, e], includes, excludes) == ra + rb + rc + rd + re
  {
    KeptFive(a, b, c, d, e, includes, excludes);
  }

  lemma KeepFirstThirdFifth(x: string, y: string, z: string)
    ensures [x] + [] + [y] + [] + [z] == [x, y, z]
  {
  }

  lemma KeepSecondThird(x: string, y: string)
    ensures [] + [x] + [y] + [] + [] == [x, y]
  {
  }

  /** Filtering the five sources one at a time, given the outcome for
      each. */
  lemma KeptSourcesOf(includes: seq<string>, excludes: seq<string>,
                      ra: seq<string>, rb: seq<string>, rc: seq<string>, rd: seq<string>, re: seq<string>, r: seq<string>)
    requires KeptIf("main.cpp", includes, excludes) == ra && KeptIf("main.go", includes, excludes) == rb
    requires KeptIf("main.h", includes, excludes) == rc && KeptIf("foo.go", includes, excludes) == rd
    requires KeptIf("bar.py", includes, excludes) == re && ra + rb + rc + rd + re == r
    ensures Kept(Sources, includes, excludes) == r
  {
    var xs := Sources;
    assert xs == [xs[0], xs[1], xs[2], xs[3], xs[4]];
    assert xs[0] == "main.cpp" && xs[1] == "main.go" && xs[2] == "main.h" && xs[3] == "foo.go" && xs[4] == "bar.py";
    KeptFiveOf(xs[0], xs[1], xs[2], xs[3], xs[4], includes, excludes, ra, rb, rc, rd, re);
  }

  /** `*.go` excludes the Go files. */
  lemma FilesExampleExcludeGo()
    ensures Kept(Sources, ["*"], ["*.go"]) == ["main.cpp", "main.h", "bar.py"]
    ensures FirstMalformed(["*"] + ["*.go"]) == None
  {
    StarWellFormed();
    GoWellFormed();
    WellFormedPair("*", "*.go");
    GoCpp();
    GoGo();
    GoH();
    GoPy();
    KeepFirstThirdFifth("main.cpp", "main.h", "bar.py");
    KeptSourcesOf(["*"], ["*.go"], ["main.cpp"], [], ["main.h"], [], ["bar.py"], ["main.cpp", "main.h", "bar.py"]);
  }

  lemma KeptIfAffixes(x: string, pre: string, suf: string)
    requires '/' !in x && Literal(pre) && '/' !in pre && Literal(suf) && '/' !in suf
    ensures KeptIf(x, [pre + "*"], ["*" + suf])
            == if |x| >= |pre| && HasPrefix(x, pre) && !(|x| >= |suf| && HasSuffix(x, suf)) then [x] else []
  {
    OneMatch(pre + "*", x);
    OneMatch("*" + suf, x);
    PrefixStarMatches(pre, x);
    StarSuffixMatches(suf, x);
  }

  lemma KeptIfMain(x: string)
    requires '/' !in x
    ensures KeptIf(x, ["main.*"], ["*.cpp"])
            == if |x| >= 5 && HasPrefix(x, "main.") && !(|x| >= 4 && HasSuffix(x, ".cpp")) then [x] else []
  {
    assert "main.*" == "main." + "*" && "*.cpp" == "*" + ".cpp";
    KeptIfAffixes(x, "main.", ".cpp");
  }

  lemma MainCpp()
    ensures KeptIf("main.cpp", ["main.*"], ["*.cpp"]) == []
  {
    KeptIfMain("main.cpp");
    assert "main.cpp"[..5] == "main." && "main.cpp"[4..] == ".cpp";
  }

  lemma MainGo()
    ensures KeptIf("main.go", ["main.*"], ["*.cpp"]) == ["main.go"]
  {
    KeptIfMain("main.go");
    assert "main.go"[..5] == "main." && "main.go"[3..][1] != ".cpp"[1];
  }

  lemma MainH()
    ensures KeptIf("main.h", ["main.*"], ["*.cpp"]) == ["main.h"]
  {
    KeptIfMain("main.h");
    assert "main.h"[..5] == "main." && "main.h"[2..][2] != ".cpp"[2];
  }

  lemma MainOthers()
    ensures KeptIf("foo.go", ["main.*"], ["*.cpp"]) == [] && KeptIf("bar.py", ["main.*"], ["*.cpp"]) == []
  {
    KeptIfMain("foo.go");
    assert "foo.go"[..5][0] != "main."[0];
    KeptIfMain("bar.py");
    assert "bar.py"[..5][0] != "main."[0];
  }

  /** `main.*` minus `*.cpp` keeps the other files named main. */
  lemma FilesExampleMainWithoutCpp()
    ensures Kept(Sources, ["main.*"], ["*.cpp"]) == ["main.go", "main.h"]
    ensures FirstMalformed(["main.*"] + ["*.cpp"]) == None
  {
    MainWellFormed();
    WellFormedPair("main.*", "*.cpp");
    MainCpp();
    MainGo();
    MainH();
    MainOthers();
    KeepSecondThird("main.go", "main.h");
    KeptSourcesOf(["main.*"], ["*.cpp"], [], ["main.go"], ["main.h"], [], [], ["main.go", "main.h"]);
  }

  // ---------------------------------------------------------------------
  // Find over the package's test tree

  /** Two directories holding two files each, and two files at the top. */
  const Fixture: seq<Node> := [
    Dir("a", [File("a.test1"), File("b.test2")]),
    Dir("b", [File("a.test1"), File("b.test2")]),
    File("x"),
    File("x.test1")]

  const FixtureFiles: seq<string> := ["a/a.test1", "a/b.test2", "b/a.test1", "b/b.test2", "x", "x.test1"]

  lemma TestDirLeaves(n: string)
    requires n != ""
    ensures Leaves(n, [File("a.test1"), File("b.test2")]) == [n + "/a.test1", n + "/b.test2"]
  {
    var es := [File("a.test1"), File("b.test2")];
    assert es[..1] == [File("a.test1")] && es[..1][..0] == [];
    assert JoinPath(n, "a.test1") == n + "/a.test1" && JoinPath(n, "b.test2") == n + "/b.test2";
  }

  lemma LeavesOne(node: Node)
    ensures Leaves("", [node]) == NodeLeaves("", node)
  {
    assert [node][..0] == [];
  }

  lemma FixtureTail()
    ensures Leaves("", Fixture[1..]) == FixtureFiles[2..]
    ensures Fixture == [Fixture[0]] + Fixture[1..]
  {
    var b := Dir("b", [File("a.test1"), File("b.test2")]);
    assert Fixture[1..] == [b] + [File("x")] + [File("x.test1")];
    LeavesConcat("", [b] + [File("x")], [File("x.test1")]);
    LeavesConcat("", [b], [File("x")]);
    LeavesOne(b);
    LeavesOne(File("x"));
    LeavesOne(File("x.test1"));
    TestDirLeaves("b");
    assert "b" + "/a.test1" == "b/a.test1" && "b" + "/b.test2" == "b/b.test2";
  }

  lemma FixtureLeaves()
    ensures Leaves("", Fixture) == FixtureFiles
  {
    var a := Dir("a", [File("a.test1"), File("b.test2")]);
    FixtureTail();
    LeavesConcat("", [a], Fixture[1..]);
    LeavesOne(a);
    TestDirLeaves("a");
    assert "a" + "/a.test1" == "a/a.test1" && "a" + "/b.test2" == "a/b.test2";
  }

  lemma FixtureFilesSorted()
    ensures Sorted(FixtureFiles)
    ensures Sorted(FixtureFiles[2..])
  {
    assert LexLe("a/a.test1", "a/b.test2");
    assert LexLe("a/b.test2", "b/a.test1");
    assert LexLe("b/a.test1", "b/b.test2");
    assert LexLe("b/b.test2", "x");
    assert LexLe("x", "x.test1");
  }

  /** Where the first entry is an excluded directory and nothing else is
      pruned or filtered out, the walk is the files of the other entries. */
  lemma WalkPrunesFirst(first: Node, rest: seq<Node>, includes: seq<string>, excludes: seq<string>)
    requires first.Dir? && AnyMatch(excludes, first.name)
    requires NoDirExcluded("", rest, excludes)
    requires forall x :: x in Leaves("", rest) ==> Keep(x, includes, excludes)
    ensures Walk("", [first] + rest, includes, excludes) == Leaves("", rest)
  {
    WalkConcat("", [first], rest, includes, excludes);
    assert [first][..0] == [];
    WalkWithoutPruning("", rest, includes, excludes);
    KeptAll(Leaves("", rest), includes, excludes);
  }

  /** Including everything finds every file, sorted. */
  lemma FindExampleAll()
    ensures SortStrings(Walk("", Fixture, ["**"], [])) == FixtureFiles
  {
    NothingExcluded("", Fixture);
    WalkWithoutPruning("", Fixture, ["**"], []);
    FixtureLeaves();
    forall i | 0 <= i < |FixtureFiles| ensures Keep(FixtureFiles[i], ["**"], []) {
      OneMatch("**", FixtureFiles[i]);
      GlobstarMatchesAll(FixtureFiles[i]);
    }
    KeptAll(FixtureFiles, ["**"], []);
    FixtureFilesSorted();
    SortStringsSortedIdentity(FixtureFiles);
  }

  lemma KeepAllBut(d: string, x: string)
    requires Literal(d) && !(|d| > 0 && d[|d| - 1] == '/') && x != d
    ensures Keep(x, ["**"], [d])
  {
    OneMatch("**", x);
    GlobstarMatchesAll(x);
    OneMatch(d, x);
    LiteralMatchesItself(d, x);
  }

  lemma RestKeptWithoutA()
    ensures forall x :: x in Leaves("", Fixture[1..]) ==> Keep(x, ["**"], ["a"])
  {
    FixtureTail();
    forall x | x in Leaves("", Fixture[1..]) ensures Keep(x, ["**"], ["a"]) {
      KeepAllBut("a", x);
    }
  }

  lemma RestKeptWithoutAUnder()
    ensures forall x :: x in Leaves("", Fixture[1..]) ==> Keep(x, ["**"], ["a/"])
  {
    FixtureTail();
    var ys := FixtureFiles[2..];
    assert ys == ["b/a.test1", "b/b.test2", "x", "x.test1"];
    assert "a" + "/" == "a/";
    forall x | x in ys ensures Keep(x, ["**"], ["a/"]) {
      assert x[0] != 'a';
      assert !HasPrefix(x, "a" + "/") by {
        if |x| >= 2 {
          assert x[..2][0] != ("a" + "/")[0];
        }
      }
      KeepAllButUnder("a", x);
    }
  }

  /** Excluding "a" prunes directory a: none of its files is visited. */
  lemma FindExampleExcludeDir()
    ensures SortStrings(Walk("", Fixture, ["**"], ["a"])) == FixtureFiles[2..]
  {
    FixtureTail();
    OneMatch("a", "a");
    LiteralMatchesItself("a", "a");
    RestKeptWithoutA();
    KeepAllBut("a", "b");
    FixtureRestFlat(["a"]);
    WalkPrunesFirst(Fixture[0], Fixture[1..], ["**"], ["a"]);
    FixtureFilesSorted();
    SortStringsSortedIdentity(FixtureFiles[2..]);
  }

  lemma KeepAllButUnder(d: string, x: string)
    requires Literal(d) && x != d && !HasPrefix(x, d + "/")
    ensures Keep(x, ["**"], [d + "/"])
  {
    OneMatch("**", x);
    GlobstarMatchesAll(x);
    OneMatch(d + "/", x);
    AnchoredLiteralMatchesSubtree(d, x);
  }

  /** Excluding "a/" prunes directory a the same way. */
  lemma FindExampleExcludeAnchored()
    ensures SortStrings(Walk("", Fixture, ["**"], ["a/"])) == FixtureFiles[2..]
  {
    FixtureTail();
    assert "a" + "/" == "a/";
    OneMatch("a/", "a");
    AnchoredLiteralMatchesSubtree("a", "a");
    RestKeptWithoutAUnder();
    KeepAllButUnder("a", "b");
    FixtureRestFlat(["a/"]);
    WalkPrunesFirst(Fixture[0], Fixture[1..], ["**"], ["a/"]);
    FixtureFilesSorted();
    SortStringsSortedIdentity(FixtureFiles[2..]);
  }

  lemma KeepUnlessTest1(x: string)
    ensures Keep(x, ["**"], ["*.test1"]) <==> !('/' !in x && |x| >= 6 && HasSuffix(x, ".test1"))
  {
    assert "*.test1" == "*" + ".test1";
    assert Literal(".test1") by {
      var suf, g := ".test1", GlobChars;
      assert g == ['*', '?', '['];
      forall i | 0 <= i < |suf| ensures suf[i] !in g {
        assert suf[i] in {'.', 't', 'e', 's', '1'};
      }
    }
    OneMatch("**", x);
    GlobstarMatchesAll(x);
    OneMatch("*.test1", x);
    StarSuffixMatches(".test1", x);
  }

  /** A top-level listing whose only directories are the first two, holding
      files only, prunes nothing unless those two names are excluded. */
  lemma TwoFlatDirs(d1: string, d2: string, es1: seq<Node>, es2: seq<Node>, rest: seq<Node>, excludes: seq<string>)
    requires forall n :: n in es1 ==> n.File?
    requires forall n :: n in es2 ==> n.File?
    requires forall n :: n in rest ==> n.File?
    requires !AnyMatch(excludes, d1) && !AnyMatch(excludes, d2)
    ensures NoDirExcluded("", [Dir(d1, es1), Dir(d2, es2)] + rest, excludes)
  {
    var entries := [Dir(d1, es1), Dir(d2, es2)] + rest;
    forall i | 0 <= i < |entries| ensures NoDirExcludedAt("", entries[i], excludes) {
      if i >= 2 {
        assert entries[i] == rest[i - 2] && rest[i - 2] in rest;
      } else {
        var es := if i == 0 then es1 else es2;
        assert entries[i] == Dir(if i == 0 then d1 else d2, es);
        assert !AnyMatch(excludes, JoinPath("", entries[i].name));
        assert NoDirExcluded(JoinPath("", entries[i].name), es, excludes) by {
          forall j | 0 <= j < |es| ensures NoDirExcludedAt(JoinPath("", entries[i].name), es[j], excludes) {
            assert es[j] in es;
          }
        }
      }
    }
  }

  lemma OneFlatDir(d: string, es: seq<Node>, rest: seq<Node>, excludes: seq<string>)
    requires forall n :: n in es ==> n.File?
    requires forall n :: n in rest ==> n.File?
    requires !AnyMatch(excludes, d)
    ensures NoDirExcluded("", [Dir(d, es)] + rest, excludes)
  {
    var entries := [Dir(d, es)] + rest;
    forall i | 0 <= i < |entries| ensures NoDirExcludedAt("", entries[i], excludes) {
      if i >= 1 {
        assert entries[i] == rest[i - 1] && rest[i - 1] in rest;
      } else {
        assert entries[i] == Dir(d, es);
        assert NoDirExcluded(JoinPath("", d), es, excludes) by {
          forall j | 0 <= j < |es| ensures NoDirExcludedAt(JoinPath("", d), es[j], excludes) {
            assert es[j] in es;
          }
        }
      }
    }
  }

  /** Below the fixture's first directory, only "b" is a directory. */
  lemma FixtureRestFlat(excludes: seq<string>)
    requires !AnyMatch(excludes, "b")
    ensures NoDirExcluded("", Fixture[1..], excludes)
  {
    var es := [File("a.test1"), File("b.test2")];
    assert Fixture[1..] == [Dir("b", es)] + [File("x"), File("x.test1")];
    OneFlatDir("b", es, [File("x"), File("x.test1")], excludes);
  }

  lemma Test1Dirs()
    ensures NoDirExcluded("", Fixture, ["*.test1"])
  {
    KeepUnlessTest1("a");
    KeepUnlessTest1("b");
    var es := [File("a.test1"), File("b.test2")];
    assert Fixture == [Dir("a", es), Dir("b", es)] + [File("x"), File("x.test1")];
    TwoFlatDirs("a", "b", es, es, [File("x"), File("x.test1")], ["*.test1"]);
  }

  lemma Test1FirstFive()
    ensures Kept(FixtureFiles[..5], ["**"], ["*.test1"]) == FixtureFiles[..5]
  {
    forall i | 0 <= i < 5 ensures Keep(FixtureFiles[..5][i], ["**"], ["*.test1"]) {
      KeepUnlessTest1(FixtureFiles[i]);
      assert i < 4 ==> FixtureFiles[i][1] == '/';
    }
    KeptAll(FixtureFiles[..5], ["**"], ["*.test1"]);
  }

  lemma Test1Last()
    ensures Kept(["x.test1"], ["**"], ["*.test1"]) == []
  {
    KeepUnlessTest1("x.test1");
    assert "x.test1"[1..] == ".test1";
    KeptOne("x.test1", ["**"], ["*.test1"]);
  }

  lemma Test1Kept()
    ensures Kept(FixtureFiles, ["**"], ["*.test1"]) == FixtureFiles[..5]
  {
    Test1FirstFive();
    Test1Last();
    assert FixtureFiles == FixtureFiles[..5] + ["x.test1"];
    KeptConcat(FixtureFiles[..5], ["x.test1"], ["**"], ["*.test1"]);
  }

  /** `*.test1` applies to the top level only: the files of that name inside
      a and b are still found. */
  lemma FindExampleExcludeTopLevel()
    ensures SortStrings(Walk("", Fixture, ["**"], ["*.test1"])) == FixtureFiles[..5]
  {
    Test1Dirs();
    WalkWithoutPruning("", Fixture, ["**"], ["*.test1"]);
    FixtureLeaves();
    Test1Kept();
    assert Sorted(FixtureFiles[..5]) by {
      FixtureFilesSorted();
    }
    SortStringsSortedIdentity(FixtureFiles[..5]);
  }

  /** `**` then `*` and a literal suffix, on a path of a directory and a
      file name or on a bare file name, tests the file name alone. */
  lemma AnywhereSuffix(suf: string, d: string, n: string)
    requires Literal(suf) && '/' !in suf && '/' !in d && '/' !in n
    ensures Matches("**/*" + suf, d + "/" + n) <==> HasSuffix(n, suf)
    ensures Matches("**/*" + suf, n) <==> HasSuffix(n, suf)
  {
    SplitSegment(d);
    SplitSegment(n);
    SplitConcat(d, n);
    GlobstarSuffixMatches(suf, d + "/" + n);
    GlobstarSuffixMatches(suf, n);
  }

  lemma Test1Test2Literal()
    ensures Literal(".test1") && '/' !in ".test1" && "**/*.test1" == "**/*" + ".test1"
    ensures Literal(".test2") && '/' !in ".test2" && "**/*.test2" == "**/*" + ".test2"
  {
  }

  /** Including `**` then `*.test1` keeps a file by its name alone. */
  lemma KeptIfTest1(d: string, n: string)
    requires '/' !in d && '/' !in n
    ensures KeptIf(d + "/" + n, ["**/*.test1"], []) == if HasSuffix(n, ".test1") then [d + "/" + n] else []
    ensures KeptIf(n, ["**/*.test1"], []) == if HasSuffix(n, ".test1") then [n] else []
  {
    Test1Test2Literal();
    AnywhereSuffix(".test1", d, n);
    OneMatch("**/*.test1", d + "/" + n);
    OneMatch("**/*.test1", n);
  }

  lemma Test1Names()
    ensures HasSuffix("a.test1", ".test1") && !HasSuffix("b.test2", ".test1")
    ensures !HasSuffix("x", ".test1") && HasSuffix("x.test1", ".test1")
  {
    assert "a.test1"[1..] == ".test1";
    assert "b.test2"[1..][5] != ".test1"[5];
    assert "x.test1"[1..] == ".test1";
  }

  lemma FixturePaths()
    ensures "a" + "/" + "a.test1" == "a/a.test1" && "a" + "/" + "b.test2" == "a/b.test2"
    ensures "b" + "/" + "a.test1" == "b/a.test1" && "b" + "/" + "b.test2" == "b/b.test2"
  {
  }

  lemma IncludeTest1Each()
    ensures KeptIf("a/a.test1", ["**/*.test1"], []) == ["a/a.test1"]
    ensures KeptIf("a/b.test2", ["**/*.test1"], []) == []
    ensures KeptIf("b/a.test1", ["**/*.test1"], []) == ["b/a.test1"]
    ensures KeptIf("b/b.test2", ["**/*.test1"], []) == []
    ensures KeptIf("x", ["**/*.test1"], []) == []
    ensures KeptIf("x.test1", ["**/*.test1"], []) == ["x.test1"]
  {
    FixturePaths();
    Test1Names();
    KeptIfTest1("a", "a.test1");
    KeptIfTest1("a", "b.test2");
    KeptIfTest1("b", "a.test1");
    KeptIfTest1("b", "b.test2");
    KeptIfTest1("a", "x");
    KeptIfTest1("a", "x.test1");
  }

  /** Filtering six names one at a time, given the outcome for each. */
  lemma KeptSixOf(a: string, b: string, c: string, d: string, e: string, f: string,
                  includes: seq<string>, excludes: seq<string>,
                  ra: seq<string>, rb: seq<string>, rc: seq<string>, rd: seq<string>, re: seq<string>, rf: seq<string>)
    requires KeptIf(a, includes, excludes) == ra && KeptIf(b, includes, excludes) == rb
    requires KeptIf(c, includes, excludes) == rc && KeptIf(d, includes, excludes) == rd
    requires KeptIf(e, includes, excludes) == re && KeptIf(f, includes, excludes) == rf
    ensures Kept([a, b, c, d, e, f], includes, excludes) == ra + rb + rc + rd + re + rf
  {
    KeptFiveOf(a, b, c, d, e, includes, excludes, ra, rb, rc, rd, re);
    assert [a, b, c, d, e, f] == [a, b, c, d, e] + [f];
    KeptConcat([a, b, c, d, e], [f], includes, excludes);
    KeptOne(f, includes, excludes);
  }

  lemma KeepFirstThirdSixth(x: string, y: string, z: string)
    ensures [x] + [] + [y] + [] + [] + [z] == [x, y, z]
  {
  }

  lemma KeepFifth(x: string)
    ensures [] + [] + [] + [] + [x] + [] == [x]
  {
  }

  /** Filtering the fixture's files one at a time, given the outcome for
      each. */
  lemma KeptFixtureOf(includes: seq<string>, excludes: seq<string>,
                      ra: seq<string>, rb: seq<string>, rc: seq<string>, rd: seq<string>, re: seq<string>, rf: seq<string>,
                      r: seq<string>)
    requires KeptIf("a/a.test1", includes, excludes) == ra && KeptIf("a/b.test2", includes, excludes) == rb
    requires KeptIf("b/a.test1", includes, excludes) == rc && KeptIf("b/b.test2", includes, excludes) == rd
    requires KeptIf("x", includes, excludes) == re && KeptIf("x.test1", includes, excludes) == rf
    requires ra + rb + rc + rd + re + rf == r
    ensures Kept(FixtureFiles, includes, excludes) == r
  {
    KeptSixOf("a/a.test1", "a/b.test2", "b/a.test1", "b/b.test2", "x", "x.test1", includes, excludes, ra, rb, rc, rd, re, rf);
  }

  lemma IncludeTest1Kept()
    ensures Kept(FixtureFiles, ["**/*.test1"], []) == ["a/a.test1", "b/a.test1", "x.test1"]
  {
    IncludeTest1Each();
    KeepFirstThirdSixth("a/a.test1", "b/a.test1", "x.test1");
    KeptFixtureOf(["**/*.test1"], [], ["a/a.test1"], [], ["b/a.test1"], [], [], ["x.test1"], ["a/a.test1", "b/a.test1", "x.test1"]);
  }

  /** `**` then `*.test1` as the only include finds the .test1 files at
      every depth. */
  lemma FindExampleIncludeAnywhere()
    ensures SortStrings(Walk("", Fixture, ["**/*.test1"], [])) == ["a/a.test1", "b/a.test1", "x.test1"]
  {
    NothingExcluded("", Fixture);
    WalkWithoutPruning("", Fixture, ["**/*.test1"], []);
    FixtureLeaves();
    IncludeTest1Kept();
    assert Sorted(["a/a.test1", "b/a.test1", "x.test1"]) by {
      assert LexLe("a/a.test1", "b/a.test1");
      assert LexLe("b/a.test1", "x.test1");
    }
    SortStringsSortedIdentity(["a/a.test1", "b/a.test1", "x.test1"]);
  }

  lemma TwoMatch(p: string, q: string, x: string)
    ensures AnyMatch([p, q], x) <==> Matches(p, x) || Matches(q, x)
  {
    assert [p, q][0] == p && [p, q][1] == q;
  }

  /** Including `**` and excluding `**` then `*.test1` and `**` then
      `*.test2` keeps a file by its name alone. */
  lemma KeptIfNoTests(d: string, n: string)
    requires '/' !in d && '/' !in n
    ensures KeptIf(d + "/" + n, ["**"], ["**/*.test1", "**/*.test2"])
            == if HasSuffix(n, ".test1") || HasSuffix(n, ".test2") then [] else [d + "/" + n]
    ensures KeptIf(n, ["**"], ["**/*.test1", "**/*.test2"])
            == if HasSuffix(n, ".test1") || HasSuffix(n, ".test2") then [] else [n]
  {
    Test1Test2Literal();
    AnywhereSuffix(".test1", d, n);
    AnywhereSuffix(".test2", d, n);
    TwoMatch("**/*.test1", "**/*.test2", d + "/" + n);
    TwoMatch("**/*.test1", "**/*.test2", n);
    OneMatch("**", d + "/" + n);
    OneMatch("**", n);
    GlobstarMatchesAll(d + "/" + n);
    GlobstarMatchesAll(n);
  }

  lemma Test2Names()
    ensures !HasSuffix("a.test1", ".test2") && HasSuffix("b.test2", ".test2")
    ensures !HasSuffix("x", ".test2") && !HasSuffix("x.test1", ".test2")
    ensures !HasSuffix("a", ".test1") && !HasSuffix("a", ".test2")
    ensures !HasSuffix("b", ".test1") && !HasSuffix("b", ".test2")
  {
    assert "a.test1"[1..][5] != ".test2"[5];
    assert "b.test2"[1..] == ".test2";
    assert "x.test1"[1..][5] != ".test2"[5];
  }

  lemma ExcludeTestsEach()
    ensures KeptIf("a/a.test1", ["**"], ["**/*.test1", "**/*.test2"]) == []
    ensures KeptIf("a/b.test2", ["**"], ["**/*.test1", "**/*.test2"]) == []
    ensures KeptIf("b/a.test1", ["**"], ["**/*.test1", "**/*.test2"]) == []
    ensures KeptIf("b/b.test2", ["**"], ["**/*.test1", "**/*.test2"]) == []
    ensures KeptIf("x", ["**"], ["**/*.test1", "**/*.test2"]) == ["x"]
    ensures KeptIf("x.test1", ["**"], ["**/*.test1", "**/*.test2"]) == []
  {
    FixturePaths();
    Test1Names();
    Test2Names();
    KeptIfNoTests("a", "a.test1");
    KeptIfNoTests("a", "b.test2");
    KeptIfNoTests("b", "a.test1");
    KeptIfNoTests("b", "b.test2");
    KeptIfNoTests("a", "x");
    KeptIfNoTests("a", "x.test1");
  }

  lemma ExcludeTestsKept()
    ensures Kept(FixtureFiles, ["**"], ["**/*.test1", "**/*.test2"]) == ["x"]
  {
    ExcludeTestsEach();
    KeepFifth("x");
    KeptFixtureOf(["**"], ["**/*.test1", "**/*.test2"], [], [], [], [], ["x"], [], ["x"]);
  }

  lemma ExcludeTestsDirs()
    ensures NoDirExcluded("", Fixture, ["**/*.test1", "**/*.test2"])
  {
    Test2Names();
    Test1Test2Literal();
    AnywhereSuffix(".test1", "", "a");
    AnywhereSuffix(".test2", "", "a");
    AnywhereSuffix(".test1", "", "b");
    AnywhereSuffix(".test2", "", "b");
    TwoMatch("**/*.test1", "**/*.test2", "a");
    TwoMatch("**/*.test1", "**/*.test2", "b");
    var es := [File("a.test1"), File("b.test2")];
    assert Fixture == [Dir("a", es), Dir("b", es)] + [File("x"), File("x.test1")];
    TwoFlatDirs("a", "b", es, es, [File("x"), File("x.test1")], ["**/*.test1", "**/*.test2"]);
  }

  /** Excludes written with `**` apply at every depth: only x is left. */
  lemma FindExampleExcludeAnywhere()
    ensures SortStrings(Walk("", Fixture, ["**"], ["**/*.test1", "**/*.test2"])) == ["x"]
  {
    ExcludeTestsDirs();
    WalkWithoutPruning("", Fixture, ["**"], ["**/*.test1", "**/*.test2"]);
    FixtureLeaves();
    ExcludeTestsKept();
    assert SortStrings(["x"]) == Insert("x", SortStrings([]));
  }
}
