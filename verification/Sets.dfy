/** Counting finite sets. */
module Sets {
  lemma SubsetCount<T>(C: set<T>, D: set<T>)
    requires C <= D
    ensures |C| <= |D|
  {
    assert D == C + (D - C);
  }

  /** A sequence without repetitions has as many members as elements. */
  lemma {:induction false} DistinctCount<T>(s: seq<T>)
    requires forall i, j | 0 <= i < j < |s| :: s[i] != s[j]
    ensures |set x | x in s| == |s|
  {
    if s != [] {
      var front := s[..|s| - 1];
      DistinctCount(front);
      assert (set x | x in s) == (set x | x in front) + {s[|s| - 1]};
    }
  }

  lemma {:induction false} InjectionCount<S(!new), T>(A: set<S>, B: set<T>, f: S -> T)
    requires forall i | i in A :: f(i) in B
    requires forall i, j | i in A && j in A && f(i) == f(j) :: i == j
    ensures |A| <= |B|
    decreases A
  {
    if A != {} {
      var i :| i in A;
      InjectionCount(A - {i}, B - {f(i)}, f);
    }
  }

  lemma {:induction false} CountOnce<T>(s: seq<T>, x: T)
    requires forall i, j | 0 <= i < j < |s| :: s[i] != s[j]
    ensures multiset(s)[x] <= 1
  {
    if s != [] {
      var front := s[..|s| - 1];
      assert s == front + [s[|s| - 1]];
      CountOnce(front, x);
      if s[|s| - 1] == x {
        assert x !in front;
      }
    }
  }

  /** A rearrangement of a sequence without repetitions has none either. */
  lemma RearrangedOnce<T>(s: seq<T>, t: seq<T>)
    requires multiset(s) == multiset(t)
    requires forall i, j | 0 <= i < j < |s| :: s[i] != s[j]
    ensures forall i, j | 0 <= i < j < |t| :: t[i] != t[j]
    ensures |s| == |t| && forall x :: x in s <==> x in t
  {
    assert |multiset(s)| == |multiset(t)|;
    forall x ensures x in s <==> x in t {
      assert x in multiset(s) <==> x in multiset(t);
    }
    forall i, j | 0 <= i < j < |t| ensures t[i] != t[j] {
      CountOnce(s, t[i]);
      assert t == t[..i + 1] + t[i + 1..];
      assert t[i] in t[..i + 1] && t[j] in t[i + 1..];
      assert multiset(t) == multiset(t[..i + 1]) + multiset(t[i + 1..]);
    }
  }
}
