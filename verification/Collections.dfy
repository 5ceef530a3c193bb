/** Facts about finite sets and duplicate-free sequences that the models share. */
module Collections {

  /** The numbers 0 .. n-1. */
  ghost function Below(n: nat): (s: set<int>)
    ensures forall x :: x in s <==> 0 <= x < n
    ensures |s| == n
  {
    if n == 0 then {} else Below(n - 1) + {n - 1}
  }

  lemma SubsetSize<T(!new)>(a: set<T>, b: set<T>)
    requires a <= b
    ensures |a| <= |b|
    ensures |a| == |b| ==> a == b
  {
    assert b == a + (b - a);
  }

  /** No entry of s occurs twice. */
  ghost predicate Distinct<T(!new)>(s: seq<T>) {
    s == [] || (Distinct(s[..|s| - 1]) && s[|s| - 1] !in s[..|s| - 1])
  }

  lemma {:induction false} DistinctMeaning<T(!new)>(s: seq<T>)
    ensures Distinct(s) <==> forall i, j | 0 <= i < j < |s| :: s[i] != s[j]
  {
    if s != [] {
      var n := |s| - 1;
      DistinctMeaning(s[..n]);
      assert forall i | 0 <= i < n :: s[i] == s[..n][i];
      assert s[n] in s[..n] ==> exists i :: 0 <= i < n && s[i] == s[n];
    }
  }

  lemma {:induction false} DistinctConcat<T(!new)>(a: seq<T>, b: seq<T>)
    ensures Distinct(a + b) <==> Distinct(a) && Distinct(b) && forall x :: !(x in a && x in b)
  {
    if b == [] {
      assert a + b == a;
    } else {
      var m := |b| - 1;
      DistinctConcat(a, b[..m]);
      assert (a + b)[..|a + b| - 1] == a + b[..m];
      assert b == b[..m] + [b[m]];
    }
  }

  lemma DistinctSuffix<T(!new)>(a: seq<T>, b: seq<T>)
    requires Distinct(a + b)
    ensures Distinct(b)
  {
    DistinctConcat(a, b);
  }

  ghost function Elements<T(!new)>(s: seq<T>): set<T> {
    if s == [] then {} else Elements(s[..|s| - 1]) + {s[|s| - 1]}
  }

  lemma {:induction false} ElementsMeaning<T(!new)>(s: seq<T>)
    ensures forall x :: x in Elements(s) <==> x in s
  {
    if s != [] {
      ElementsMeaning(s[..|s| - 1]);
      assert s == s[..|s| - 1] + [s[|s| - 1]];
    }
  }

  lemma SameElements<T(!new)>(s: seq<T>, t: seq<T>)
    requires forall x :: x in s <==> x in t
    ensures Elements(s) == Elements(t)
  {
    ElementsMeaning(s);
    ElementsMeaning(t);
    assert forall x :: x in Elements(s) <==> x in Elements(t);
  }

  lemma {:induction false} DistinctSize<T(!new)>(s: seq<T>)
    requires Distinct(s)
    ensures |Elements(s)| == |s|
  {
    if s != [] {
      var n := |s| - 1;
      DistinctSize(s[..n]);
      ElementsMeaning(s[..n]);
    }
  }

  /** A duplicate-free list of numbers below n has n entries exactly when it has them all. */
  lemma RosterSize(s: seq<int>, n: nat)
    requires Distinct(s) && forall x | x in s :: 0 <= x < n
    ensures |s| <= n
    ensures |s| == n <==> forall x | 0 <= x < n :: x in s
  {
    DistinctSize(s);
    ElementsMeaning(s);
    SubsetSize(Elements(s), Below(n));
    if forall x | 0 <= x < n :: x in s {
      assert Elements(s) == Below(n);
    }
    if |s| == n {
      forall x | 0 <= x < n
        ensures x in s
      {
        assert x in Below(n) && x in Elements(s);
      }
    }
  }
}
