/** Glob patterns over `/`-separated paths, as the filter package uses them.

    A pattern is split into segments at `/`. A segment that is exactly `**`
    matches zero or more whole path segments; any other segment is matched
    against one path segment, where `*` matches any run of characters, `?`
    any one character and `[...]` one character of a class (`[^...]` or
    `[!...]` negates it, `a-z` is a range). A pattern ending in `/` is
    directory-anchored: it matches an entry and everything below it.
    A pattern that does not parse is malformed and matches nothing. */
module Glob {
  import opened Paths

  datatype Token = Lit(c: char) | AnyChar | Star | Class(negated: bool, ranges: seq<(char, char)>)

  datatype Segment = Globstar | Plain(tokens: seq<Token>)

  datatype Pattern = Pattern(segments: seq<Segment>, anchored: bool)

  /** The ranges of a class body up to its closing `]`, and what follows it.
      `-` and `]` cannot start a range, and a class needs at least one. */
  function ParseRanges(s: string, seen: seq<(char, char)>): (r: Option<(seq<(char, char)>, string)>)
    ensures r.Some? ==> |r.value.1| < |s| && |r.value.0| > 0
    decreases |s|
  {
    if |s| == 0 then None
    else if s[0] == ']' then (if |seen| == 0 then None else Some((seen, s[1..])))
    else if s[0] == '-' then None
    else if |s| >= 3 && s[1] == '-' && s[2] != ']' then
      if s[2] == '-' then None else ParseRanges(s[3..], seen + [(s[0], s[2])])
    else ParseRanges(s[1..], seen + [(s[0], s[0])])
  }

  /** A character class whose opening `[` has been consumed. */
  function ParseClass(s: string): (r: Option<(Token, string)>)
    ensures r.Some? ==> |r.value.1| < |s|
  {
    var negated := |s| > 0 && (s[0] == '^' || s[0] == '!');
    var body := if negated then s[1..] else s;
    match ParseRanges(body, [])
    case None => None
    case Some((rs, rest)) => Some((Class(negated, rs), rest))
  }

  function ParseSegmentTokens(s: string): Option<seq<Token>>
    decreases |s|
  {
    if s == [] then Some([])
    else if s[0] == '[' then
      match ParseClass(s[1..])
      case None => None
      case Some((t, rest)) =>
        (match ParseSegmentTokens(rest)
         case None => None
         case Some(ts) => Some([t] + ts))
    else
      var t := if s[0] == '*' then Star else if s[0] == '?' then AnyChar else Lit(s[0]);
      match ParseSegmentTokens(s[1..])
      case None => None
      case Some(ts) => Some([t] + ts)
  }

  function ParseSegment(x: string): Option<Segment>
  {
    if x == "**" then Some(Globstar)
    else match ParseSegmentTokens(x)
      case None => None
      case Some(ts) => Some(Plain(ts))
  }

  function ParseSegments(xs: seq<string>): Option<seq<Segment>>
  {
    if xs == [] then Some([])
    else match ParseSegment(xs[0])
      case None => None
      case Some(h) =>
        (match ParseSegments(xs[1..])
         case None => None
         case Some(hs) => Some([h] + hs))
  }

  function ParsePattern(p: string): Option<Pattern>
  {
    var anchored := |p| > 0 && p[|p| - 1] == '/';
    var stem := if anchored then p[..|p| - 1] else p;
    match ParseSegments(Split(stem))
    case None => None
    case Some(ss) => Some(Pattern(ss, anchored))
  }

  predicate Malformed(p: string)
  {
    ParsePattern(p).None?
  }

  predicate InRanges(c: char, rs: seq<(char, char)>)
  {
    exists i :: 0 <= i < |rs| && rs[i].0 <= c <= rs[i].1
  }

  /** Whether the tokens of one pattern segment match one path segment. */
  predicate MatchTokens(ts: seq<Token>, s: string)
    decreases |ts| + |s|
  {
    if ts == [] then s == []
    else match ts[0]
      case Star => MatchTokens(ts[1..], s) || (s != [] && MatchTokens(ts, s[1..]))
      case Lit(c) => s != [] && s[0] == c && MatchTokens(ts[1..], s[1..])
      case AnyChar => s != [] && MatchTokens(ts[1..], s[1..])
      case Class(neg, rs) => s != [] && InRanges(s[0], rs) != neg && MatchTokens(ts[1..], s[1..])
  }

  /** Whether pattern segments match a sequence of path segments. */
  predicate MatchSegments(ps: seq<Segment>, xs: seq<string>)
    decreases |ps| + |xs|
  {
    if ps == [] then xs == []
    else match ps[0]
      case Globstar => MatchSegments(ps[1..], xs) || (xs != [] && MatchSegments(ps, xs[1..]))
      case Plain(ts) => xs != [] && MatchTokens(ts, xs[0]) && MatchSegments(ps[1..], xs[1..])
  }

  predicate MatchPattern(p: Pattern, path: string)
  {
    var xs := Split(path);
    if p.anchored then exists k :: 1 <= k <= |xs| && MatchSegments(p.segments, xs[..k])
    else MatchSegments(p.segments, xs)
  }

  /** Whether glob `pattern` matches `path`; a malformed pattern matches nothing. */
  predicate Matches(pattern: string, path: string)
  {
    match ParsePattern(pattern)
    case None => false
    case Some(p) => MatchPattern(p, path)
  }

  /** Pattern segments are parsed one by one. */
  lemma {:induction false} ParseSegmentsShape(xs: seq<string>)
    requires ParseSegments(xs).Some?
    ensures |ParseSegments(xs).value| == |xs|
    ensures forall j :: 0 <= j < |xs| ==> ParseSegment(xs[j]) == Some(ParseSegments(xs).value[j])
  {
    if xs != [] {
      ParseSegmentsShape(xs[1..]);
      var ps := ParseSegments(xs).value;
      assert ps[1..] == ParseSegments(xs[1..]).value;
      forall j | 1 <= j < |xs| ensures ParseSegment(xs[j]) == Some(ps[j]) {
        assert xs[j] == xs[1..][j - 1];
      }
    }
  }

  /** A list of segments fails to parse exactly when one of them does. */
  lemma {:induction false} ParseSegmentsNone(xs: seq<string>)
    ensures ParseSegments(xs).None? <==> exists j :: 0 <= j < |xs| && ParseSegment(xs[j]).None?
  {
    if xs != [] {
      ParseSegmentsNone(xs[1..]);
      if ParseSegment(xs[0]).Some? && ParseSegments(xs[1..]).None? {
        var j :| 0 <= j < |xs[1..]| && ParseSegment(xs[1..][j]).None?;
        assert xs[j + 1] == xs[1..][j];
      }
      if exists j :: 0 <= j < |xs| && ParseSegment(xs[j]).None? {
        var j :| 0 <= j < |xs| && ParseSegment(xs[j]).None?;
        if j > 0 {
          assert xs[1..][j - 1] == xs[j];
        }
      }
    }
  }

  /** A pattern is malformed exactly when one of its `/`-separated segments,
      after a trailing `/` is set aside, fails to parse. */
  lemma MalformedSegments(p: string)
    ensures var stem := if |p| > 0 && p[|p| - 1] == '/' then p[..|p| - 1] else p;
      Malformed(p) <==> exists j :: 0 <= j < |Split(stem)| && ParseSegment(Split(stem)[j]).None?
  {
    var stem := if |p| > 0 && p[|p| - 1] == '/' then p[..|p| - 1] else p;
    ParseSegmentsNone(Split(stem));
    assert Malformed(p) <==> ParseSegments(Split(stem)).None?;
  }

  /** Without `**`, each pattern segment matches exactly one path segment. */
  lemma {:induction false} PlainSegmentsCount(ps: seq<Segment>, xs: seq<string>)
    requires forall j :: 0 <= j < |ps| ==> ps[j].Plain?
    requires MatchSegments(ps, xs)
    ensures |xs| == |ps|
  {
    if ps != [] {
      assert ps[0].Plain?;
      PlainSegmentsCount(ps[1..], xs[1..]);
    }
  }

  /** Only a well-formed pattern matches; and when it has no `**` segment,
      `*`, `?` and classes never cross a `/`, so an unanchored pattern
      matches only paths with as many segments as it has, and an anchored
      one only paths with at least as many. */
  lemma MatchSegmentCount(p: string, path: string)
    requires Matches(p, path)
    ensures !Malformed(p)
    ensures var anchored := |p| > 0 && p[|p| - 1] == '/';
      var stem := if anchored then p[..|p| - 1] else p;
      (forall j :: 0 <= j < |Split(stem)| ==> Split(stem)[j] != "**") ==>
        if anchored then |Split(path)| >= |Split(stem)| else |Split(path)| == |Split(stem)|
  {
    var anchored := |p| > 0 && p[|p| - 1] == '/';
    var stem := if anchored then p[..|p| - 1] else p;
    var xs := Split(stem);
    if forall j :: 0 <= j < |xs| ==> xs[j] != "**" {
      var ps := ParseSegments(xs).value;
      ParseSegmentsShape(xs);
      forall j | 0 <= j < |ps| ensures ps[j].Plain? {
        assert ParseSegment(xs[j]) == Some(ps[j]);
      }
      if anchored {
        var k :| 1 <= k <= |Split(path)| && MatchSegments(ps, Split(path)[..k]);
        PlainSegmentsCount(ps, Split(path)[..k]);
      } else {
        PlainSegmentsCount(ps, Split(path));
      }
    }
  }

  // ---------------------------------------------------------------------
  // Malformed patterns

  lemma {:induction false} UnclosedRanges(s: string, seen: seq<(char, char)>)
    requires ']' !in s
    ensures ParseRanges(s, seen).None?
    decreases |s|
  {
    if |s| > 0 && s[0] != '-' {
      if |s| >= 3 && s[1] == '-' && s[2] != ']' {
        if s[2] != '-' {
          UnclosedRanges(s[3..], seen + [(s[0], s[2])]);
        }
      } else {
        UnclosedRanges(s[1..], seen + [(s[0], s[0])]);
      }
    }
  }

  lemma {:induction false} UnclosedSegment(s: string)
    requires '[' in s && ']' !in s
    ensures ParseSegmentTokens(s).None?
    decreases |s|
  {
    if s[0] == '[' {
      var negated := |s| > 1 && (s[1] == '^' || s[1] == '!');
      var body := if negated then s[2..] else s[1..];
      assert forall c :: c in body ==> c in s;
      UnclosedRanges(body, []);
    } else {
      assert forall c :: c in s[1..] ==> c in s;
      UnclosedSegment(s[1..]);
    }
  }

  lemma {:induction false} UnclosedSegments(xs: seq<string>, i: nat)
    requires i < |xs| && '[' in xs[i] && ']' !in xs[i]
    ensures ParseSegments(xs).None?
  {
    if i == 0 {
      assert xs[0] != "**";
      UnclosedSegment(xs[0]);
    } else {
      UnclosedSegments(xs[1..], i - 1);
    }
  }

  /** A pattern with a `[` and no `]` anywhere, such as `[[`, is malformed
      and therefore matches no path. */
  lemma UnclosedClassIsMalformed(p: string)
    requires '[' in p && ']' !in p
    ensures Malformed(p)
    ensures forall path :: !Matches(p, path)
  {
    var anchored := |p| > 0 && p[|p| - 1] == '/';
    var stem := if anchored then p[..|p| - 1] else p;
    assert '[' in stem by {
      var j :| 0 <= j < |p| && p[j] == '[';
      if anchored { assert stem[j] == '['; }
    }
    assert ']' !in stem by {
      assert forall c :: c in stem ==> c in p;
    }
    SplitKeeps(stem, '[');
    SplitAvoids(stem, ']');
    var i :| 0 <= i < |Split(stem)| && '[' in Split(stem)[i];
    UnclosedSegments(Split(stem), i);
  }

  // ---------------------------------------------------------------------
  // Star and globstar

  lemma {:induction false} StarMatchesAll(s: string)
    ensures MatchTokens([Star], s)
    decreases |s|
  {
    if s != [] {
      StarMatchesAll(s[1..]);
    }
  }

  lemma ParseStarSegment()
    ensures ParseSegmentTokens("*") == Some([Star])
  {
    var p := "*";
    assert p[1..] == [];
    assert [Star] + [] == [Star];
  }

  /** The parse of a pattern made of one segment. */
  lemma ParseOneSegment(p: string, h: Segment)
    requires p != "" && p[|p| - 1] != '/' && '/' !in p
    requires if p == "**" then h == Globstar else h.Plain? && ParseSegmentTokens(p) == Some(h.tokens)
    ensures ParsePattern(p) == Some(Pattern([h], false))
  {
    SplitSegment(p);
    var xs := [p];
    assert xs[1..] == [];
    assert ParseSegments(xs[1..]) == Some([]);
    assert [h] + [] == [h];
    assert ParseSegments(xs) == Some([h]);
  }

  lemma ParseStar()
    ensures ParsePattern("*") == Some(Pattern([Plain([Star])], false))
  {
    ParseStarSegment();
    ParseOneSegment("*", Plain([Star]));
  }

  lemma ParseGlobstar()
    ensures ParsePattern("**") == Some(Pattern([Globstar], false))
  {
    ParseOneSegment("**", Globstar);
  }

  lemma ParseGlobstarStar()
    ensures ParsePattern("**/*") == Some(Pattern([Globstar, Plain([Star])], false))
  {
    var p := "**/*";
    SplitSegment("**");
    SplitSegment("*");
    SplitConcat("**", "*");
    assert p == "**" + "/" + "*";
    assert Split(p) == ["**", "*"];
    ParseStarSegment();
    assert ["**", "*"][1..] == ["*"];
    assert ["*"][1..] == [];
    assert [Plain([Star])] + [] == [Plain([Star])];
    assert ParseSegments(["*"]) == Some([Plain([Star])]);
    assert [Globstar] + [Plain([Star])] == [Globstar, Plain([Star])];
  }

  /** A pattern of one plain segment matches the one-segment paths its
      tokens match. */
  lemma OneSegmentMatch(ts: seq<Token>, path: string)
    ensures MatchSegments([Plain(ts)], Split(path)) <==> '/' !in path && MatchTokens(ts, path)
  {
    var xs := Split(path);
    var ps := [Plain(ts)];
    assert ps[1..] == [];
    if '/' !in path {
      SplitSegment(path);
      assert xs[1..] == [];
    } else {
      JoinSplit(path);
      assert xs[1..] != [];
    }
  }

  /** `*` matches exactly the paths of one segment. */
  lemma StarMatchesOneSegment(path: string)
    ensures Matches("*", path) <==> '/' !in path
  {
    ParseStar();
    OneSegmentMatch([Star], path);
    StarMatchesAll(path);
  }

  /** `**` followed by `*` matches any path of at least one segment. */
  lemma {:induction false} GlobstarStarSegments(xs: seq<string>)
    requires |xs| >= 1
    ensures MatchSegments([Globstar, Plain([Star])], xs)
  {
    if |xs| == 1 {
      StarMatchesAll(xs[0]);
      assert [Globstar, Plain([Star])][1..] == [Plain([Star])];
      assert MatchSegments([Plain([Star])], xs);
    } else {
      GlobstarStarSegments(xs[1..]);
    }
  }

  /** `**` followed by `*` matches every path, of any depth, relative or absolute. */
  lemma GlobstarStarMatchesAll(path: string)
    ensures Matches("**/*", path)
  {
    ParseGlobstarStar();
    GlobstarStarSegments(Split(path));
  }

  lemma {:induction false} GlobstarSegments(xs: seq<string>)
    ensures MatchSegments([Globstar], xs)
  {
    if xs != [] {
      GlobstarSegments(xs[1..]);
    }
  }

  /** `**` alone matches every path. */
  lemma GlobstarMatchesAll(path: string)
    ensures Matches("**", path)
  {
    ParseGlobstar();
    GlobstarSegments(Split(path));
  }

  // ---------------------------------------------------------------------
  // Literal patterns

  const GlobChars: string := "*?["

  predicate Literal(s: string)
  {
    forall i :: 0 <= i < |s| ==> s[i] !in GlobChars
  }

  function Lits(s: string): (ts: seq<Token>)
    ensures |ts| == |s|
  {
    if s == [] then [] else [Lit(s[0])] + Lits(s[1..])
  }

  lemma {:induction false} ParseLiteralSegment(s: string)
    requires Literal(s)
    ensures ParseSegmentTokens(s) == Some(Lits(s))
  {
    if s != [] {
      ParseLiteralSegment(s[1..]);
    }
  }

  lemma {:induction false} MatchLits(s: string, y: string)
    ensures MatchTokens(Lits(s), y) <==> y == s
  {
    if s != [] && y != [] {
      MatchLits(s[1..], y[1..]);
      assert Lits(s)[1..] == Lits(s[1..]);
      assert y == [y[0]] + y[1..] && s == [s[0]] + s[1..];
    }
  }

  function LitSegments(xs: seq<string>): (ps: seq<Segment>)
    ensures |ps| == |xs|
  {
    if xs == [] then [] else [Plain(Lits(xs[0]))] + LitSegments(xs[1..])
  }

  lemma {:induction false} ParseLiteralSegments(xs: seq<string>)
    requires forall i :: 0 <= i < |xs| ==> Literal(xs[i])
    ensures ParseSegments(xs) == Some(LitSegments(xs))
  {
    if xs != [] {
      assert xs[0] != "**" by {
        assert Literal(xs[0]);
        assert |xs[0]| == 2 ==> xs[0][0] != '*';
      }
      ParseLiteralSegment(xs[0]);
      ParseLiteralSegments(xs[1..]);
    }
  }

  lemma {:induction false} MatchLitSegments(xs: seq<string>, ys: seq<string>)
    ensures MatchSegments(LitSegments(xs), ys) <==> ys == xs
  {
    if xs != [] && ys != [] {
      MatchLits(xs[0], ys[0]);
      MatchLitSegments(xs[1..], ys[1..]);
      assert LitSegments(xs)[1..] == LitSegments(xs[1..]);
      assert ys == [ys[0]] + ys[1..] && xs == [xs[0]] + xs[1..];
    }
  }

  lemma LiteralSplit(s: string)
    requires Literal(s)
    ensures forall i :: 0 <= i < |Split(s)| ==> Literal(Split(s)[i])
  {
    SplitAvoids(s, '*');
    SplitAvoids(s, '?');
    SplitAvoids(s, '[');
    forall i | 0 <= i < |Split(s)| ensures Literal(Split(s)[i]) {
      var x := Split(s)[i];
      forall j | 0 <= j < |x| ensures x[j] !in GlobChars {
        assert x[j] in x;
      }
    }
  }

  lemma ParseLiteral(x: string)
    requires Literal(x)
    ensures ParseSegment(x) == Some(Plain(Lits(x)))
  {
    ParseLiteralSegment(x);
    assert x != "**" by {
      assert |x| == 2 ==> x[0] != '*';
    }
  }

  /** Where the leading pattern segments are literal, the matching path
      segments are spelled the same. */
  lemma {:induction false} MatchLiteralPrefix(ps: seq<Segment>, ys: seq<string>, lits: seq<string>)
    requires |lits| <= |ps|
    requires forall j :: 0 <= j < |lits| ==> ps[j] == Plain(Lits(lits[j]))
    requires MatchSegments(ps, ys)
    ensures |lits| <= |ys| && ys[..|lits|] == lits
  {
    if lits != [] {
      MatchLits(lits[0], ys[0]);
      MatchLiteralPrefix(ps[1..], ys[1..], lits[1..]);
      assert ys[..|lits|] == [ys[0]] + ys[1..][..|lits| - 1];
      assert lits == [lits[0]] + lits[1..];
    }
  }

  /** A pattern without glob characters and without a trailing `/` matches
      exactly the one path spelled like it. */
  lemma LiteralMatchesItself(p: string, path: string)
    requires Literal(p) && !(|p| > 0 && p[|p| - 1] == '/')
    ensures Matches(p, path) <==> path == p
  {
    LiteralSplit(p);
    ParseLiteralSegments(Split(p));
    MatchLitSegments(Split(p), Split(path));
    JoinSplit(p);
    JoinSplit(path);
  }

  /** Paths whose first segments spell `d` are `d` or lie below it. */
  lemma SegmentPrefixIsSubtree(d: string, path: string, k: nat)
    requires 1 <= k <= |Split(path)| && Split(path)[..k] == Split(d)
    ensures path == d || HasPrefix(path, d + "/")
  {
    var xs := Split(path);
    JoinSplit(path);
    JoinSplit(d);
    if k < |xs| {
      assert xs == xs[..k] + xs[k..];
      JoinConcat(xs[..k], xs[k..]);
      var r := Join(xs[k..]);
      assert path == d + "/" + r;
      assert (d + "/" + r)[..|d| + 1] == d + "/";
    } else {
      assert xs[..k] == xs;
    }
  }

  /** A directory-anchored literal `d/` matches `d` and every path below it,
      and nothing else. */
  lemma AnchoredLiteralMatchesSubtree(d: string, path: string)
    requires Literal(d)
    ensures Matches(d + "/", path) <==> path == d || HasPrefix(path, d + "/")
  {
    var p := d + "/";
    assert p[..|p| - 1] == d;
    LiteralSplit(d);
    ParseLiteralSegments(Split(d));
    var ds := Split(d);
    var xs := Split(path);
    assert Matches(p, path) <==> exists k :: 1 <= k <= |xs| && MatchSegments(LitSegments(ds), xs[..k]);
    if Matches(p, path) {
      var k :| 1 <= k <= |xs| && MatchSegments(LitSegments(ds), xs[..k]);
      MatchLitSegments(ds, xs[..k]);
      SegmentPrefixIsSubtree(d, path, k);
    }
    if path == d {
      MatchLitSegments(ds, xs);
      assert xs[..|xs|] == xs;
    } else if HasPrefix(path, d + "/") {
      var rest := path[|d| + 1..];
      assert path == d + "/" + rest;
      SplitConcat(d, rest);
      assert xs[..|ds|] == ds;
      MatchLitSegments(ds, xs[..|ds|]);
    }
  }

  // ---------------------------------------------------------------------
  // One star between literal affixes

  predicate HasSuffix(s: string, suf: string)
  {
    |suf| <= |s| && s[|s| - |suf|..] == suf
  }

  lemma {:induction false} StarSuffix(suf: string, s: string)
    ensures MatchTokens([Star] + Lits(suf), s) <==> HasSuffix(s, suf)
    decreases |s|
  {
    var ts := [Star] + Lits(suf);
    assert ts[1..] == Lits(suf);
    MatchLits(suf, s);
    if s != [] {
      StarSuffix(suf, s[1..]);
      if |suf| < |s| {
        assert s[|s| - |suf|..] == s[1..][|s| - 1 - |suf|..];
      }
    }
  }

  lemma PrefixStep(s: string, pre: string)
    requires s != [] && pre != []
    ensures HasPrefix(s, pre) <==> s[0] == pre[0] && HasPrefix(s[1..], pre[1..])
  {
    if |pre| <= |s| {
      assert s[..|pre|] == [s[0]] + s[1..][..|pre| - 1];
      assert pre == [pre[0]] + pre[1..];
    }
  }

  lemma SuffixStep(s: string, suf: string, n: nat)
    requires s != [] && n + |suf| <= |s| - 1
    ensures HasSuffix(s, suf) <==> HasSuffix(s[1..], suf)
  {
    assert s[|s| - |suf|..] == s[1..][|s| - 1 - |suf|..];
  }

  lemma {:induction false} AffixTokens(pre: string, suf: string, s: string)
    ensures MatchTokens(Lits(pre) + [Star] + Lits(suf), s)
            <==> |pre| + |suf| <= |s| && HasPrefix(s, pre) && HasSuffix(s, suf)
    decreases |pre|
  {
    var ts := Lits(pre) + [Star] + Lits(suf);
    if pre == [] {
      assert ts == [Star] + Lits(suf);
      StarSuffix(suf, s);
    } else {
      assert ts[0] == Lit(pre[0]);
      assert ts[1..] == Lits(pre[1..]) + [Star] + Lits(suf);
      if s != [] {
        AffixTokens(pre[1..], suf, s[1..]);
        PrefixStep(s, pre);
        if |pre| + |suf| <= |s| {
          SuffixStep(s, suf, |pre| - 1);
        }
      }
    }
  }

  lemma {:induction false} ParseAffixSegment(pre: string, suf: string)
    requires Literal(pre) && Literal(suf)
    ensures ParseSegmentTokens(pre + "*" + suf) == Some(Lits(pre) + [Star] + Lits(suf))
    decreases |pre|
  {
    var s := pre + "*" + suf;
    if pre == [] {
      assert s[0] == '*' && s[1..] == suf;
      ParseLiteralSegment(suf);
      assert Lits(pre) + [Star] + Lits(suf) == [Star] + Lits(suf);
    } else {
      assert s[0] == pre[0] && s[1..] == pre[1..] + "*" + suf;
      assert pre[0] !in GlobChars;
      assert pre[0] != '[' && pre[0] != '*' && pre[0] != '?';
      ParseAffixSegment(pre[1..], suf);
      assert Lits(pre) + [Star] + Lits(suf) == [Lit(pre[0])] + (Lits(pre[1..]) + [Star] + Lits(suf));
    }
  }

  /** A one-segment pattern `pre*suf` with literal `pre` and `suf` matches
      exactly the one-segment paths that start with `pre` and end with `suf`,
      long enough for both. */
  lemma AffixMatches(pre: string, suf: string, path: string)
    requires Literal(pre) && Literal(suf) && '/' !in pre && '/' !in suf
    ensures Matches(pre + "*" + suf, path)
            <==> '/' !in path && |pre| + |suf| <= |path| && HasPrefix(path, pre) && HasSuffix(path, suf)
  {
    var p := pre + "*" + suf;
    var ts := Lits(pre) + [Star] + Lits(suf);
    assert p[|pre|] == '*';
    assert '/' !in p by {
      forall i | 0 <= i < |p| ensures p[i] != '/' {
        if i < |pre| { assert p[i] == pre[i]; }
        else if i > |pre| { assert p[i] == suf[i - |pre| - 1]; }
      }
    }
    assert p != "**" by {
      if |p| == 2 {
        if pre == [] { assert suf[0] == p[1]; assert suf[0] !in GlobChars; }
        else { assert p[0] == pre[0]; assert pre[0] !in GlobChars; }
      }
    }
    assert p[|p| - 1] != '/';
    ParseAffixSegment(pre, suf);
    ParseOneSegment(p, Plain(ts));
    OneSegmentMatch(ts, path);
    AffixTokens(pre, suf, path);
  }

  // ---------------------------------------------------------------------
  // A suffix at any depth

  /** `**` followed by one plain segment matches the non-empty segment lists
      whose last segment that plain segment matches. */
  lemma {:induction false} GlobstarThenSegment(ts: seq<Token>, xs: seq<string>)
    ensures MatchSegments([Globstar, Plain(ts)], xs) <==> xs != [] && MatchTokens(ts, xs[|xs| - 1])
    decreases |xs|
  {
    var ps := [Globstar, Plain(ts)];
    assert ps[1..] == [Plain(ts)];
    assert [Plain(ts)][1..] == [];
    assert MatchSegments([Plain(ts)], xs) <==> |xs| == 1 && MatchTokens(ts, xs[0]);
    if xs != [] {
      GlobstarThenSegment(ts, xs[1..]);
      if |xs| > 1 {
        assert xs[1..][|xs| - 2] == xs[|xs| - 1];
      }
    }
  }

  lemma ParseSuffixSegment(suf: string)
    requires Literal(suf)
    ensures ParseSegment("*" + suf) == Some(Plain([Star] + Lits(suf)))
  {
    var seg := "*" + suf;
    assert "" + "*" + suf == seg;
    ParseAffixSegment("", suf);
    assert Lits("") + [Star] + Lits(suf) == [Star] + Lits(suf);
    assert seg != "**" by {
      if |seg| == 2 {
        assert suf[0] == seg[1];
        assert suf[0] !in GlobChars;
      }
    }
  }

  lemma SplitGlobstarSuffix(suf: string)
    requires '/' !in suf
    ensures Split("**/*" + suf) == ["**", "*" + suf]
  {
    var seg := "*" + suf;
    assert "**/*" + suf == "**" + "/" + seg;
    assert '/' !in seg by {
      forall i | 0 <= i < |seg| ensures seg[i] != '/' {
        if i > 0 {
          assert seg[i] == suf[i - 1];
        }
      }
    }
    SplitSegment("**");
    SplitSegment(seg);
    SplitConcat("**", seg);
  }

  lemma ParseGlobstarSuffix(suf: string)
    requires Literal(suf) && '/' !in suf
    ensures ParsePattern("**/*" + suf) == Some(Pattern([Globstar, Plain([Star] + Lits(suf))], false))
  {
    var p := "**/*" + suf;
    var seg := "*" + suf;
    SplitGlobstarSuffix(suf);
    ParseSuffixSegment(suf);
    assert p[|p| - 1] == seg[|seg| - 1];
    var xs: seq<string> := ["**", seg];
    assert xs[1..] == [seg];
    var h := Plain([Star] + Lits(suf));
    assert xs[1..][0] == seg && xs[1..][1..] == [];
    assert ParseSegments(xs[1..][1..]) == Some([]);
    assert [h] + [] == [h];
    assert ParseSegments(xs[1..]) == Some([h]);
    assert [Globstar] + [h] == [Globstar, h];
  }

  /** `**` then `*suf` matches exactly the paths, at any depth, whose last
      segment ends with `suf`. */
  lemma GlobstarSuffixMatches(suf: string, path: string)
    requires Literal(suf) && '/' !in suf
    ensures Matches("**/*" + suf, path) <==> HasSuffix(Split(path)[|Split(path)| - 1], suf)
  {
    ParseGlobstarSuffix(suf);
    GlobstarThenSegment([Star] + Lits(suf), Split(path));
    StarSuffix(suf, Split(path)[|Split(path)| - 1]);
  }
}
