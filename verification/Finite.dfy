/** Small facts about finite sets and duplicate-free lists. */
module Finite {

  ghost predicate NoDup<T>(s: seq<T>) {
    forall i, j :: 0 <= i < j < |s| ==> s[i] != s[j]
  }

  ghost function Elements(s: seq<int>): set<int> {
    set x | x in s
  }

  lemma {:induction false} NoneMeansEmpty<T>(r: set<T>)
    requires forall v :: v !in r
    ensures r == {}
  {
  }

  lemma {:induction false} SomeElement<T>(r: set<T>) returns (v: T)
    requires r != {}
    ensures v in r
  {
    if forall v :: v !in r {
      NoneMeansEmpty(r);
    }
    v :| v in r;
  }

  /** Extensionality, spelled out. */
  lemma {:induction false} SameElements(a: set<int>, b: set<int>)
    requires forall x :: x in a <==> x in b
    ensures a == b
  {
    forall x | x in a
      ensures x in b
    {
    }
    forall x | x in b
      ensures x in a
    {
    }
  }

  lemma {:induction false} SubsetSize(a: set<int>, b: set<int>)
    requires forall x :: x in a ==> x in b
    ensures |a| <= |b|
  {
    if a != {} {
      var x := SomeElement(a);
      SubsetSize(a - {x}, b - {x});
    }
  }

  lemma {:induction false} SameSize(a: set<int>, b: set<int>)
    requires (forall x :: x in a ==> x in b) && |a| == |b|
    ensures forall x :: x in b ==> x in a
  {
    forall x | x in b
      ensures x in a
    {
      if x !in a {
        SubsetSize(a, b - {x});
      }
    }
  }

  lemma {:induction false} NoDupSize(s: seq<int>)
    requires NoDup(s)
    ensures |Elements(s)| == |s|
  {
    if s != [] {
      var front := s[..|s| - 1];
      NoDupSize(front);
      assert s == front + [s[|s| - 1]];
      assert Elements(s) == Elements(front) + {s[|s| - 1]};
    }
  }

  /** A duplicate-free list drawn from `r` is no longer than `r`. */
  lemma {:induction false} NoDupFits(s: seq<int>, r: set<int>)
    requires NoDup(s) && forall x :: x in s ==> x in r
    ensures |s| <= |r|
  {
    forall x | x in Elements(s)
      ensures x in r
    {
    }
    NoDupSize(s);
    SubsetSize(Elements(s), r);
  }
}
