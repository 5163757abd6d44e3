/**
 * Order-preserving removal from a list, the effect of Java's
 * `Collection.removeIf` on the method and field lists of a class.
 */
module Seqs {

  /** `s` without the elements for which `drop` holds, in their original order. */
  function Remove<T(==,!new)>(s: seq<T>, drop: T -> bool): (r: seq<T>)
    ensures |r| <= |s|
    ensures forall x :: x in r <==> x in s && !drop(x)
  {
    if s == [] then []
    else (if drop(s[0]) then [] else [s[0]]) + Remove(s[1..], drop)
  }

  /** The elements of `a` occur in `b` in the same order. */
  predicate IsSubsequence<T(==)>(a: seq<T>, b: seq<T>)
    decreases |b|
  {
    if a == [] then true
    else if b == [] then false
    else (a[0] == b[0] && IsSubsequence(a[1..], b[1..])) || IsSubsequence(a, b[1..])
  }

  lemma {:induction false} RemoveIsSubsequence<T(!new)>(s: seq<T>, drop: T -> bool)
    ensures IsSubsequence(Remove(s, drop), s)
  {
    if s != [] {
      RemoveIsSubsequence(s[1..], drop);
      if drop(s[0]) {
        assert Remove(s, drop) == Remove(s[1..], drop);
      } else {
        assert Remove(s, drop)[0] == s[0];
        assert Remove(s, drop)[1..] == Remove(s[1..], drop);
      }
    }
  }

  /** Two removals in a row remove what either of them would. */
  lemma {:induction false} RemoveThenRemove<T(!new)>(s: seq<T>, p: T -> bool, q: T -> bool, both: T -> bool)
    requires forall x :: both(x) == (p(x) || q(x))
    ensures Remove(Remove(s, p), q) == Remove(s, both)
  {
    if s != [] {
      RemoveThenRemove(s[1..], p, q, both);
      var rest := Remove(s[1..], p);
      if p(s[0]) {
        assert Remove(s, p) == rest;
      } else {
        var once := Remove(s, p);
        assert once == [s[0]] + rest;
        assert once[0] == s[0] && once[1..] == rest;
        assert Remove(once, q) == (if q(s[0]) then [] else [s[0]]) + Remove(rest, q);
      }
      assert Remove(s, both) == (if both(s[0]) then [] else [s[0]]) + Remove(s[1..], both);
    }
  }

  /** Removal only depends on what the predicate says about the list's own elements. */
  lemma {:induction false} RemoveCongruent<T(!new)>(s: seq<T>, p: T -> bool, q: T -> bool)
    requires forall x :: x in s ==> p(x) == q(x)
    ensures Remove(s, p) == Remove(s, q)
  {
    if s != [] {
      assert forall x :: x in s[1..] ==> x in s;
      RemoveCongruent(s[1..], p, q);
    }
  }

  /** Removing with a predicate that holds of nothing in the list changes nothing. */
  lemma {:induction false} RemoveNothing<T(!new)>(s: seq<T>, drop: T -> bool)
    requires forall x :: x in s ==> !drop(x)
    ensures Remove(s, drop) == s
  {
    if s != [] {
      assert forall x :: x in s[1..] ==> x in s;
      RemoveNothing(s[1..], drop);
      assert s == [s[0]] + s[1..];
    }
  }
}
