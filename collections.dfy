/**
 * Sequence helpers that stand for Python list idioms: a comprehension with
 * an `if` (Filter), concatenating a list of lists (Flatten) and the key order
 * of a dict filled from a sequence (FirstOccurrences).
 */
module Collections {

  predicate Distinct<T(==)>(s: seq<T>) {
    forall i, j :: 0 <= i < j < |s| ==> s[i] != s[j]
  }

  /** The elements of `s` in the order of their first occurrence: the key order
      of a Python dict whose keys are inserted in the order of `s`. */
  function FirstOccurrences<T(==,!new)>(s: seq<T>): (r: seq<T>)
    ensures Distinct(r)
    ensures forall x :: x in r <==> x in s
  {
    if s == [] then []
    else
      var p := FirstOccurrences(s[..|s| - 1]);
      assert forall x :: x in s <==> x in s[..|s| - 1] || x == s[|s| - 1] by {
        assert s == s[..|s| - 1] + [s[|s| - 1]];
      }
      if s[|s| - 1] in p then p else p + [s[|s| - 1]]
  }

  /** `[x for xs in ss for x in xs]` */
  function Flatten<T>(ss: seq<seq<T>>): seq<T> {
    if ss == [] then [] else Flatten(ss[..|ss| - 1]) + ss[|ss| - 1]
  }

  lemma {:induction false} FlattenAppend<T>(a: seq<seq<T>>, b: seq<seq<T>>)
    ensures Flatten(a + b) == Flatten(a) + Flatten(b)
    decreases |b|
  {
    if b == [] {
      assert a + b == a;
    } else {
      var b' := b[..|b| - 1];
      assert (a + b)[..|a + b| - 1] == a + b';
      FlattenAppend(a, b');
    }
  }

  lemma FlattenSingle<T>(e: seq<T>)
    ensures Flatten([e]) == e
  {
    assert [e][..0] == [];
  }

  lemma SplitAround<T>(b: seq<T>, j: nat)
    requires j < |b|
    ensures b == (b[..j] + [b[j]]) + b[j + 1..]
  {
  }

  /** Taking out one piece takes its elements out of the concatenation. */
  lemma RemovePiece<T>(b: seq<seq<T>>, j: nat)
    requires j < |b|
    ensures multiset(b[..j] + b[j + 1..]) == multiset(b) - multiset{b[j]}
    ensures multiset(Flatten(b)) == multiset(Flatten(b[..j] + b[j + 1..])) + multiset(b[j])
  {
    var e, left, right := b[j], b[..j], b[j + 1..];
    SplitAround(b, j);
    FlattenAppend(left + [e], right);
    FlattenAppend(left, [e]);
    FlattenAppend(left, right);
    FlattenSingle(e);
    var fl, fr := Flatten(left), Flatten(right);
    assert Flatten(b) == fl + e + fr;
    assert Flatten(left + right) == fl + fr;
    assert multiset(fl + e + fr) == multiset(fl) + multiset(e) + multiset(fr);
    assert multiset(fl + fr) == multiset(fl) + multiset(fr);
  }

  /** Counting over the concatenation does not depend on the order of the
      pieces: a permutation of the pieces gives a permutation of the result. */
  lemma {:induction false} FlattenPermutation<T>(a: seq<seq<T>>, b: seq<seq<T>>)
    requires multiset(a) == multiset(b)
    ensures multiset(Flatten(a)) == multiset(Flatten(b))
    decreases |a|
  {
    if a == [] {
      assert |b| == |multiset(b)| == 0;
    } else {
      var n := |a| - 1;
      var e := a[n];
      assert a == a[..n] + [e];
      assert multiset(a[..n]) == multiset(a) - multiset{e};
      assert e in multiset(b);
      var j :| 0 <= j < |b| && b[j] == e;
      RemovePiece(b, j);
      FlattenPermutation(a[..n], b[..j] + b[j + 1..]);
    }
  }

  /** `[x for x in s if keep(x)]` */
  function Filter<T(!new)>(s: seq<T>, keep: T -> bool): (r: seq<T>)
    ensures |r| <= |s|
    ensures forall x :: x in r <==> x in s && keep(x)
  {
    if s == [] then []
    else
      var rest := Filter(s[1..], keep);
      assert forall x :: x in s <==> x == s[0] || x in s[1..] by {
        assert s == [s[0]] + s[1..];
      }
      (if keep(s[0]) then [s[0]] else []) + rest
  }

  /** A filter that keeps nothing gives the empty list. */
  lemma {:induction false} FilterNone<T(!new)>(s: seq<T>, keep: T -> bool)
    requires forall x :: !keep(x)
    ensures Filter(s, keep) == []
  {
    if s != [] {
      FilterNone(s[1..], keep);
    }
  }

  /** Filtering keeps the order of the elements it keeps. */
  lemma {:induction false} FilterPrefix<T(!new)>(s: seq<T>, keep: T -> bool, i: nat)
    requires i <= |s|
    ensures Filter(s, keep) == Filter(s[..i], keep) + Filter(s[i..], keep)
    decreases i
  {
    if i > 0 {
      var t := s[1..];
      FilterPrefix(t, keep, i - 1);
      assert s[..i][1..] == t[..i - 1];
      assert s[i..] == t[i - 1..];
      var head := if keep(s[0]) then [s[0]] else [];
      assert Filter(s, keep) == head + Filter(t, keep);
      assert s[..i][0] == s[0];
      assert Filter(s[..i], keep) == head + Filter(t[..i - 1], keep);
      assert head + (Filter(t[..i - 1], keep) + Filter(t[i - 1..], keep))
          == (head + Filter(t[..i - 1], keep)) + Filter(t[i - 1..], keep);
    } else {
      assert s[..i] == [] && s[i..] == s;
    }
  }
}
