/** Sorting strings in increasing lexicographic order, character by
    character, as the string sort of the standard library orders them. */
module Sorting {

  /** `a` comes no later than `b`: a prefix comes first, otherwise the
      first differing character decides. */
  predicate LexLe(a: string, b: string)
  {
    a == [] || (b != [] && (a[0] < b[0] || (a[0] == b[0] && LexLe(a[1..], b[1..]))))
  }

  lemma {:induction false} LexLeTotal(a: string, b: string)
    ensures LexLe(a, b) || LexLe(b, a)
  {
    if a != [] && b != [] && a[0] == b[0] {
      LexLeTotal(a[1..], b[1..]);
    }
  }

  lemma {:induction false} LexLeTransitive(a: string, b: string, c: string)
    requires LexLe(a, b) && LexLe(b, c)
    ensures LexLe(a, c)
  {
    if a != [] && a[0] == b[0] && b[0] == c[0] {
      LexLeTransitive(a[1..], b[1..], c[1..]);
    }
  }

  lemma {:induction false} LexLeAntisymmetric(a: string, b: string)
    requires LexLe(a, b) && LexLe(b, a)
    ensures a == b
  {
    if a != [] {
      LexLeAntisymmetric(a[1..], b[1..]);
      assert a == [a[0]] + a[1..] && b == [b[0]] + b[1..];
    }
  }

  /** Each string is no later than the next one. */
  predicate Sorted(s: seq<string>)
  {
    forall i :: 0 <= i < |s| - 1 ==> LexLe(s[i], s[i + 1])
  }

  /** Inserts `x` before the first element it does not come after. */
  function Insert(x: string, s: seq<string>): seq<string>
  {
    if s == [] || LexLe(x, s[0]) then [x] + s else [s[0]] + Insert(x, s[1..])
  }

  /** Insertion sort. */
  function SortStrings(xs: seq<string>): seq<string>
  {
    if xs == [] then [] else Insert(xs[0], SortStrings(xs[1..]))
  }

  lemma {:induction false} InsertPermutes(x: string, s: seq<string>)
    ensures multiset(Insert(x, s)) == multiset(s) + multiset{x}
    ensures |Insert(x, s)| == |s| + 1
  {
    if s != [] && !LexLe(x, s[0]) {
      InsertPermutes(x, s[1..]);
      assert s == [s[0]] + s[1..];
    }
  }

  lemma {:induction false} InsertSorted(x: string, s: seq<string>)
    requires Sorted(s)
    ensures Sorted(Insert(x, s))
    ensures s != [] ==> Insert(x, s)[0] == x || Insert(x, s)[0] == s[0]
  {
    if s != [] && !LexLe(x, s[0]) {
      var t := s[1..];
      assert Sorted(t) by {
        forall i | 0 <= i < |t| - 1 ensures LexLe(t[i], t[i + 1]) {
          assert t[i] == s[i + 1] && t[i + 1] == s[i + 2];
        }
      }
      InsertSorted(x, t);
      LexLeTotal(x, s[0]);
      var r := Insert(x, s);
      var u := Insert(x, t);
      assert r == [s[0]] + u;
      if t != [] {
        assert LexLe(s[0], t[0]);
      }
      forall i | 0 <= i < |r| - 1 ensures LexLe(r[i], r[i + 1]) {
        if i > 0 {
          assert r[i] == u[i - 1] && r[i + 1] == u[i];
        }
      }
    }
  }

  /** The sort returns its input in sorted order: a sorted permutation. */
  lemma {:induction false} SortStringsSorts(xs: seq<string>)
    ensures Sorted(SortStrings(xs))
    ensures multiset(SortStrings(xs)) == multiset(xs)
  {
    if xs != [] {
      SortStringsSorts(xs[1..]);
      InsertSorted(xs[0], SortStrings(xs[1..]));
      InsertPermutes(xs[0], SortStrings(xs[1..]));
      assert xs == [xs[0]] + xs[1..];
    }
  }

  /** Sorting an already sorted list changes nothing. */
  lemma {:induction false} SortStringsSortedIdentity(xs: seq<string>)
    requires Sorted(xs)
    ensures SortStrings(xs) == xs
  {
    if xs != [] {
      var t := xs[1..];
      assert Sorted(t) by {
        forall i | 0 <= i < |t| - 1 ensures LexLe(t[i], t[i + 1]) {
          assert t[i] == xs[i + 1] && t[i + 1] == xs[i + 2];
        }
      }
      SortStringsSortedIdentity(t);
      assert xs == [xs[0]] + t;
    }
  }

  /** In a sorted list every earlier string comes no later than every later
      one. */
  lemma {:induction false} SortedPairwise(s: seq<string>, i: nat, j: nat)
    requires Sorted(s) && i <= j < |s|
    ensures LexLe(s[i], s[j])
    decreases j - i
  {
    if i == j {
      LexLeReflexive(s[i]);
    } else {
      SortedPairwise(s, i + 1, j);
      LexLeTransitive(s[i], s[i + 1], s[j]);
    }
  }

  lemma {:induction false} LexLeReflexive(a: string)
    ensures LexLe(a, a)
  {
    if a != [] {
      LexLeReflexive(a[1..]);
    }
  }

  lemma SortedTail(s: seq<string>)
    requires Sorted(s) && s != []
    ensures Sorted(s[1..])
  {
    var t := s[1..];
    forall k | 0 <= k < |t| - 1 ensures LexLe(t[k], t[k + 1]) {
      assert t[k] == s[k + 1] && t[k + 1] == s[k + 2];
    }
  }

  lemma MultisetTail(s: seq<string>)
    requires s != []
    ensures multiset(s[1..]) == multiset(s) - multiset{s[0]}
  {
    assert s == [s[0]] + s[1..];
  }

  /** Sorted permutations of each other start with the same string. */
  lemma SortedHeads(s: seq<string>, t: seq<string>)
    requires Sorted(s) && Sorted(t) && multiset(s) == multiset(t) && s != [] && t != []
    ensures s[0] == t[0]
  {
    assert s[0] in multiset(t) && t[0] in multiset(s);
    var i :| 0 <= i < |t| && t[i] == s[0];
    var j :| 0 <= j < |s| && s[j] == t[0];
    SortedPairwise(t, 0, i);
    SortedPairwise(s, 0, j);
    LexLeAntisymmetric(s[0], t[0]);
  }

  /** Two sorted permutations of the same strings are equal: the order the
      sort produces does not depend on the input order. */
  lemma {:induction false} SortedUnique(s: seq<string>, t: seq<string>)
    requires Sorted(s) && Sorted(t) && multiset(s) == multiset(t)
    ensures s == t
    decreases |s|
  {
    assert |t| == |s| by {
      assert |multiset(s)| == |s| && |multiset(t)| == |t|;
    }
    if s != [] {
      SortedHeads(s, t);
      SortedTail(s);
      SortedTail(t);
      MultisetTail(s);
      MultisetTail(t);
      SortedUnique(s[1..], t[1..]);
      assert s == [s[0]] + s[1..] && t == [t[0]] + t[1..];
    }
  }
}
