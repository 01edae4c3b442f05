/** Slash-separated paths: splitting into segments, joining them back, and
    the "is at or below" relation between directories that watch roots use. */
module Paths {

  datatype Option<+T> = None | Some(value: T)

  /** The segments of `s` between `/` separators. The empty string has one
      empty segment, and a leading `/` gives an empty first segment. */
  function Split(s: string): (r: seq<string>)
    ensures |r| >= 1
    ensures forall i :: 0 <= i < |r| ==> '/' !in r[i]
  {
    if s == [] then [""]
    else
      var t := Split(s[1..]);
      if s[0] == '/' then [""] + t
      else [[s[0]] + t[0]] + t[1..]
  }

  /** Puts segments back together with `/` between them. */
  function Join(xs: seq<string>): string
    requires |xs| >= 1
  {
    if |xs| == 1 then xs[0] else xs[0] + "/" + Join(xs[1..])
  }

  predicate NoSlash(xs: seq<string>)
  {
    forall i :: 0 <= i < |xs| ==> '/' !in xs[i]
  }

  predicate IsAbs(s: string)
  {
    |s| > 0 && s[0] == '/'
  }

  predicate HasPrefix(s: string, p: string)
  {
    |p| <= |s| && s[..|p|] == p
  }

  /** Directory `a` covers path `b` when `b` is `a` itself or lies below it.
      The relative root "." covers every relative path, the absolute root
      "/" every absolute one. */
  predicate Covers(a: string, b: string)
  {
    a == b || (a == "." && !IsAbs(b)) || (a == "/" && IsAbs(b)) || HasPrefix(b, a + "/")
  }

  lemma ConcatAssoc<T>(x: seq<T>, y: seq<T>, z: seq<T>)
    ensures (x + y) + z == x + (y + z)
  {
  }

  lemma TakeTake<T>(s: seq<T>, k: nat, n: nat)
    requires n <= k <= |s|
    ensures s[..k][..n] == s[..n]
  {
  }

  lemma TakeConcat<T>(x: seq<T>, y: seq<T>, n: nat)
    requires n <= |x|
    ensures (x + y)[..n] == x[..n]
  {
  }

  lemma TakeDrop<T>(s: seq<T>, n: nat)
    requires n <= |s|
    ensures s == s[..n] + s[n..]
  {
  }

  lemma InitLast<T>(s: seq<T>)
    requires s != []
    ensures s == s[..|s| - 1] + [s[|s| - 1]]
  {
  }

  lemma {:induction false} JoinSplit(s: string)
    ensures Join(Split(s)) == s
  {
    if s != [] {
      var t := Split(s[1..]);
      JoinSplit(s[1..]);
      if s[0] == '/' {
        assert Split(s) == [""] + t;
        assert Join(Split(s)) == "" + "/" + Join(t);
      } else if |t| == 1 {
        assert Split(s) == [[s[0]] + t[0]];
      } else {
        assert Split(s) == [[s[0]] + t[0]] + t[1..];
        assert Join(t) == t[0] + "/" + Join(t[1..]);
        assert Join(Split(s)) == ([s[0]] + t[0]) + "/" + Join(t[1..]);
      }
    }
  }

  /** A segment free of `/` splits to itself. */
  lemma {:induction false} SplitSegment(a: string)
    requires '/' !in a
    ensures Split(a) == [a]
  {
    if a != [] {
      SplitSegment(a[1..]);
      assert [a[0]] + a[1..] == a;
    }
  }

  /** Splitting distributes over a `/` separator. */
  lemma {:induction false} SplitConcat(a: string, b: string)
    ensures Split(a + "/" + b) == Split(a) + Split(b)
  {
    var s := a + "/" + b;
    if a == [] {
      assert s[0] == '/' && s[1..] == b;
    } else {
      var s' := a[1..] + "/" + b;
      assert s[0] == a[0] && s[1..] == s';
      SplitConcat(a[1..], b);
      var t := Split(a[1..]);
      var u := Split(s');
      assert u == t + Split(b);
      if a[0] == '/' {
        assert Split(s) == [""] + u;
        assert Split(a) == [""] + t;
        ConcatAssoc([""], t, Split(b));
      } else {
        assert Split(s) == [[a[0]] + u[0]] + u[1..];
        assert Split(a) == [[a[0]] + t[0]] + t[1..];
        assert u[0] == t[0];
        assert u[1..] == t[1..] + Split(b);
        ConcatAssoc([[a[0]] + t[0]], t[1..], Split(b));
      }
    }
  }

  lemma {:induction false} SplitJoin(xs: seq<string>)
    requires |xs| >= 1 && NoSlash(xs)
    ensures Split(Join(xs)) == xs
  {
    if |xs| == 1 {
      SplitSegment(xs[0]);
    } else {
      SplitJoin(xs[1..]);
      SplitSegment(xs[0]);
      SplitConcat(xs[0], Join(xs[1..]));
      assert [xs[0]] + xs[1..] == xs;
    }
  }

  /** Join of a concatenation puts one `/` between the two halves. */
  lemma {:induction false} JoinConcat(a: seq<string>, b: seq<string>)
    requires |a| >= 1 && |b| >= 1
    ensures Join(a + b) == Join(a) + "/" + Join(b)
  {
    if |a| == 1 {
      assert (a + b)[1..] == b;
    } else {
      JoinConcat(a[1..], b);
      assert (a + b)[1..] == a[1..] + b;
    }
  }

  /** A trailing `/` adds one empty segment. */
  lemma SplitTrailingSlash(q: string)
    ensures Split(q + "/") == Split(q) + [""]
  {
    SplitConcat(q, "");
    assert q + "/" + "" == q + "/";
  }

  lemma {:induction false} CoversTransitive(a: string, b: string, c: string)
    requires a != "" && b != ""
    requires Covers(a, b) && Covers(b, c)
    ensures Covers(a, c)
  {
    if a == b || b == c {
    } else if HasPrefix(b, a + "/") {
      assert |b| >= 2;
      if HasPrefix(c, b + "/") {
        assert c[..|a| + 1] == b[..|a| + 1];
      }
    } else if a == "." {
      if HasPrefix(c, b + "/") {
        assert c[0] == b[0];
      }
    } else {
      if HasPrefix(c, b + "/") {
        assert c[0] == b[0];
      }
    }
  }

  /** No segment of `s` holds character `c` when `s` does not. */
  lemma {:induction false} SplitAvoids(s: string, c: char)
    requires c !in s
    ensures forall i :: 0 <= i < |Split(s)| ==> c !in Split(s)[i]
  {
    if s != [] {
      SplitAvoids(s[1..], c);
    }
  }

  /** A character of `s` other than `/` lies in some segment. */
  lemma {:induction false} SplitKeeps(s: string, c: char)
    requires c in s && c != '/'
    ensures exists i :: 0 <= i < |Split(s)| && c in Split(s)[i]
  {
    var t := Split(s[1..]);
    if s[0] == c {
      assert c in Split(s)[0];
    } else {
      SplitKeeps(s[1..], c);
      var i :| 0 <= i < |t| && c in t[i];
      if s[0] == '/' {
        assert Split(s)[i + 1] == t[i];
      } else if i == 0 {
        assert c in Split(s)[0];
      } else {
        assert Split(s)[i] == t[i];
      }
    }
  }
}
