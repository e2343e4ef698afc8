/** Sequences without repetition, and what of a sequence a set forgets. */
module Sequences {

  predicate Distinct<T(==)>(s: seq<T>) {
    forall i, j :: 0 <= i < j < |s| ==> s[i] != s[j]
  }

  function Elements<T>(s: seq<T>): set<T> {
    set x | x in s
  }

  lemma DistinctExtended<T>(s: seq<T>, x: T)
    ensures Distinct(s + [x]) <==> Distinct(s) && x !in s
  {
    var longer := s + [x];
    assert longer[|s|] == x;
    if Distinct(longer) {
      forall i, j | 0 <= i < j < |s| ensures s[i] != s[j] { assert longer[i] != longer[j]; }
      forall i | 0 <= i < |s| ensures s[i] != x { assert longer[i] != longer[|s|]; }
    }
  }

  lemma DistinctPrefix<T>(s: seq<T>, n: nat)
    requires n <= |s|
    ensures Distinct(s) ==> Distinct(s[..n])
  {
    if Distinct(s) {
      forall i, j | 0 <= i < j < n ensures s[..n][i] != s[..n][j] { assert s[i] != s[j]; }
    }
  }

  lemma DistinctConcat<T>(a: seq<T>, b: seq<T>)
    requires Distinct(a) && Distinct(b) && Elements(a) !! Elements(b)
    ensures Distinct(a + b)
  {
    var c := a + b;
    forall i, j | 0 <= i < j < |c| ensures c[i] != c[j] {
      if j < |a| {
      } else if i < |a| {
        assert a[i] in Elements(a) && b[j - |a|] in Elements(b);
      } else {
        assert b[i - |a|] != b[j - |a|];
      }
    }
  }

  lemma ElementsConcat<T>(a: seq<T>, b: seq<T>)
    ensures Elements(a + b) == Elements(a) + Elements(b)
  {
  }

  /** A sequence is distinct exactly when nothing counts twice in it. */
  lemma {:induction false} DistinctCounts<T>(s: seq<T>)
    ensures Distinct(s) <==> forall x :: multiset(s)[x] <= 1
  {
    if s != [] {
      var front, last := s[..|s| - 1], s[|s| - 1];
      assert s == front + [last];
      DistinctCounts(front);
      DistinctExtended(front, last);
      assert last in front <==> multiset(front)[last] > 0;
      assert forall x :: multiset(s)[x] == multiset(front)[x] + if x == last then 1 else 0;
    }
  }

  /** Without repetitions, order is all that a set forgets. */
  lemma SameElements<T>(a: seq<T>, b: seq<T>)
    requires Distinct(a)
    ensures multiset(a) == multiset(b) <==> Distinct(b) && Elements(a) == Elements(b)
  {
    DistinctCounts(a);
    DistinctCounts(b);
    forall x ensures (x in Elements(a) <==> multiset(a)[x] > 0) && (x in Elements(b) <==> multiset(b)[x] > 0) {}
    if Distinct(b) && Elements(a) == Elements(b) {
      assert forall x :: multiset(a)[x] == multiset(b)[x];
    }
    if multiset(a) == multiset(b) {
      assert forall x :: x in Elements(a) <==> x in Elements(b);
    }
  }
}
