/**
 Order notions on sequences shared by the pattern matcher and the name search:
 a prefix, a contiguous window (an infix) and an order-preserving, not
 necessarily contiguous, subsequence.
 */
module Sequences {

  /** `p` occurs at the front of `s`. */
  predicate IsPrefix<T(==)>(p: seq<T>, s: seq<T>) {
    |p| <= |s| && s[..|p|] == p
  }

  /** `p` occurs as a contiguous window of `s`; for strings this is Python's `p in s`. */
  predicate IsInfix<T(==)>(p: seq<T>, s: seq<T>) {
    exists i :: 0 <= i <= |s| && IsPrefix(p, s[i..])
  }

  /** The elements of `a` occur in `b` in the same order, possibly with gaps. */
  predicate IsSubsequence<T(==)>(a: seq<T>, b: seq<T>)
    decreases |b|
  {
    a == [] ||
    (b != [] && ((a[0] == b[0] && IsSubsequence(a[1..], b[1..])) || IsSubsequence(a, b[1..])))
  }

  lemma {:induction false} SubsequenceReflexive<T>(s: seq<T>)
    ensures IsSubsequence(s, s)
    decreases |s|
  {
    if s != [] {
      SubsequenceReflexive(s[1..]);
    }
  }

  lemma {:induction false} SubsequenceLength<T>(a: seq<T>, b: seq<T>)
    requires IsSubsequence(a, b)
    ensures |a| <= |b|
    decreases |b|
  {
    if a != [] {
      if a[0] == b[0] && IsSubsequence(a[1..], b[1..]) {
        SubsequenceLength(a[1..], b[1..]);
      } else {
        SubsequenceLength(a, b[1..]);
      }
    }
  }

  lemma {:induction false} SubsequenceTransitive<T>(a: seq<T>, b: seq<T>, c: seq<T>)
    requires IsSubsequence(a, b) && IsSubsequence(b, c)
    ensures IsSubsequence(a, c)
    decreases |c|
  {
    if a != [] {
      assert b != [] && c != [];
      if IsSubsequence(b, c[1..]) {
        SubsequenceTransitive(a, b, c[1..]);
      } else {
        assert b[0] == c[0] && IsSubsequence(b[1..], c[1..]);
        if a[0] == b[0] && IsSubsequence(a[1..], b[1..]) {
          SubsequenceTransitive(a[1..], b[1..], c[1..]);
        } else {
          SubsequenceTransitive(a, b[1..], c[1..]);
        }
      }
    }
  }

  /** A subsequence of a suffix of `s` is a subsequence of `s`. */
  lemma {:induction false} SubsequenceOfSuffix<T>(a: seq<T>, s: seq<T>, i: nat)
    requires i <= |s| && IsSubsequence(a, s[i..])
    ensures IsSubsequence(a, s)
    decreases i
  {
    if i > 0 {
      assert s[i - 1..][1..] == s[i..];
      SubsequenceOfSuffix(a, s, i - 1);
    }
  }

  lemma {:induction false} PrefixIsSubsequence<T>(p: seq<T>, s: seq<T>)
    requires IsPrefix(p, s)
    ensures IsSubsequence(p, s)
    decreases |p|
  {
    if p != [] {
      assert s[1..][..|p| - 1] == p[1..];
      PrefixIsSubsequence(p[1..], s[1..]);
    }
  }

  /** A contiguous window is in particular an order-preserving subsequence. */
  lemma InfixIsSubsequence<T>(p: seq<T>, s: seq<T>)
    requires IsInfix(p, s)
    ensures IsSubsequence(p, s)
  {
    var i :| 0 <= i <= |s| && IsPrefix(p, s[i..]);
    PrefixIsSubsequence(p, s[i..]);
    SubsequenceOfSuffix(p, s, i);
  }

  /** The empty sequence is a window of every sequence. */
  lemma EmptyIsInfix<T>(s: seq<T>)
    ensures IsInfix([], s)
  {
    assert IsPrefix([], s[0..]);
  }

  /** A window of the tail is a window of the whole. */
  lemma InfixOfTail<T>(p: seq<T>, s: seq<T>)
    requires s != [] && IsInfix(p, s[1..])
    ensures IsInfix(p, s)
  {
    var i :| 0 <= i <= |s[1..]| && IsPrefix(p, s[1..][i..]);
    assert s[1..][i..] == s[i + 1..];
  }
}
