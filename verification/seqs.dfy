/** Facts about sequences that the roster model needs: occurrence counts,
    duplicate-free sequences, first-occurrence de-duplication (the key order
    of a Python dict filled in sequence order) and order-preserving
    subsequences. */
module Seqs {

  /** No element occurs twice. */
  predicate Distinct<T(==)>(s: seq<T>) {
    forall i, j :: 0 <= i < j < |s| ==> s[i] != s[j]
  }

  /** How many times `a` occurs in `s`. */
  function Occurrences<T(==)>(s: seq<T>, a: T): (n: nat)
    ensures n <= |s|
    ensures n > 0 <==> a in s
  {
    if s == [] then 0
    else
      var p := s[..|s| - 1];
      assert s == p + [s[|s| - 1]];
      Occurrences(p, a) + (if s[|s| - 1] == a then 1 else 0)
  }

  lemma {:induction false} OccurrencesAppend<T>(a: seq<T>, b: seq<T>, e: T)
    ensures Occurrences(a + b, e) == Occurrences(a, e) + Occurrences(b, e)
    decreases |b|
  {
    if b == [] {
      assert a + b == a;
    } else {
      var b' := b[..|b| - 1];
      assert (a + b)[..|a + b| - 1] == a + b';
      OccurrencesAppend(a, b', e);
    }
  }

  /** In a duplicate-free sequence every member occurs exactly once. */
  lemma {:induction false} OccurrencesOfDistinct<T>(s: seq<T>, a: T)
    requires Distinct(s)
    requires a in s
    ensures Occurrences(s, a) == 1
  {
    var p := s[..|s| - 1];
    assert s == p + [s[|s| - 1]];
    if s[|s| - 1] == a {
    } else {
      assert a in p;
      OccurrencesOfDistinct(p, a);
    }
  }

  /** The members of `s`, each once, in order of first occurrence. */
  function Dedup<T(==,!new)>(s: seq<T>): (r: seq<T>)
    ensures Distinct(r)
    ensures forall a :: a in r <==> a in s
  {
    if s == [] then []
    else
      var p := s[..|s| - 1];
      assert s == p + [s[|s| - 1]];
      var q := Dedup(p);
      if s[|s| - 1] in q then q else q + [s[|s| - 1]]
  }

  /** `r` is `s` with some elements dropped and the rest kept in order. */
  predicate IsSubsequence<T(==)>(r: seq<T>, s: seq<T>)
    decreases |s|
  {
    if s == [] then r == []
    else
      var p := s[..|s| - 1];
      IsSubsequence(r, p)
      || (r != [] && r[|r| - 1] == s[|s| - 1] && IsSubsequence(r[..|r| - 1], p))
  }
}
