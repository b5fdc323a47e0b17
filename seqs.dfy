/** Facts about sequences used throughout the model: distinctness, the set of
    elements of a sequence, and listing a set in an arbitrary order. */
module Seqs {

  /** No element occurs twice. */
  predicate Distinct<T(==)>(s: seq<T>) {
    forall i, j :: 0 <= i < j < |s| ==> s[i] != s[j]
  }

  /** The elements of `s`, forgetting order and multiplicity. */
  function ToSet<T>(s: seq<T>): set<T> {
    set x | x in s
  }

  /** Collecting a sequence into a set never gains elements, and loses one
      exactly when some element repeats. */
  lemma {:induction false} DistinctCardinality<T>(s: seq<T>)
    ensures |ToSet(s)| <= |s|
    ensures |ToSet(s)| == |s| <==> Distinct(s)
  {
    if s != [] {
      var t, x := s[..|s| - 1], s[|s| - 1];
      assert s == t + [x];
      DistinctCardinality(t);
      assert ToSet(s) == ToSet(t) + {x};
      if x in t {
        var j :| 0 <= j < |t| && t[j] == x;
        assert s[j] == s[|s| - 1];
        assert ToSet(s) == ToSet(t);
      } else {
        assert x !in ToSet(t);
        assert Distinct(t) ==> Distinct(s) by {
          if Distinct(t) {
            forall i, j | 0 <= i < j < |s| ensures s[i] != s[j] {
              if j < |s| - 1 {
                assert s[i] == t[i] && s[j] == t[j];
              } else {
                assert s[i] == t[i];
              }
            }
          }
        }
        assert Distinct(s) ==> Distinct(t) by {
          if Distinct(s) {
            forall i, j | 0 <= i < j < |t| ensures t[i] != t[j] {
              assert t[i] == s[i] && t[j] == s[j];
            }
          }
        }
      }
    }
  }

  /** Two sequences with the same multiset of elements have the same
      elements, and one is duplicate-free when the other is. */
  lemma DistinctMultiset<T>(a: seq<T>, b: seq<T>)
    requires multiset(a) == multiset(b)
    requires Distinct(b)
    ensures Distinct(a)
    ensures ToSet(a) == ToSet(b)
  {
    assert forall x :: x in a <==> x in multiset(a);
    assert forall x :: x in b <==> x in multiset(b);
    assert ToSet(a) == ToSet(b);
    assert |a| == |multiset(a)| == |multiset(b)| == |b|;
    DistinctCardinality(a);
    DistinctCardinality(b);
  }

  /** The elements of `s`, each once, taken out in an arbitrary order: the
      order in which a hash set hands out its elements is not fixed. */
  method SetToSeq<T(==)>(s: set<T>) returns (r: seq<T>)
    ensures Distinct(r)
    ensures ToSet(r) == s
  {
    r := [];
    var rest := s;
    while rest != {}
      invariant rest <= s
      invariant Distinct(r)
      invariant forall k :: 0 <= k < |r| ==> r[k] in s && r[k] !in rest
      invariant forall x :: x in s ==> x in rest || x in r
      decreases |rest|
    {
      var x :| x in rest;
      DistinctSnoc(r, x);
      r, rest := r + [x], rest - {x};
    }
  }

  /** Appending a new element keeps a sequence duplicate-free. */
  lemma DistinctSnoc<T>(s: seq<T>, x: T)
    requires Distinct(s)
    requires x !in s
    ensures Distinct(s + [x])
  {
  }

  /** Taking the same element out of two equal multisets leaves them equal. */
  lemma MultisetRemoveAt<T>(a: seq<T>, j: nat, b: seq<T>, x: T)
    requires j < |a| && a[j] == x
    requires multiset(a) == multiset(b + [x])
    ensures multiset(a[..j] + a[j + 1..]) == multiset(b)
  {
    var rest := a[..j] + a[j + 1..];
    assert a == a[..j] + [x] + a[j + 1..];
    assert multiset(a) == multiset(rest) + multiset{x};
    assert multiset(b + [x]) == multiset(b) + multiset{x};
    forall y ensures multiset(rest)[y] == multiset(b)[y] {
      assert multiset(a)[y] == multiset(rest)[y] + multiset{x}[y];
      assert multiset(b + [x])[y] == multiset(b)[y] + multiset{x}[y];
    }
    assert multiset(rest) == multiset(b);
  }
}
