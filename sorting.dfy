/** Go's sort.Slice and sort.Strings: reorder a slice in place so that no
    element is `less` than an element before it. The library's algorithm is not
    part of this model; an insertion sort by adjacent swaps stands in for it and
    meets the same contract. */
module Sorting {
  import Strings

  /** What sort.Slice demands of `less`: a strict weak ordering. Stated as
      asymmetry and transitivity of "not less". */
  ghost predicate StrictWeakOrder<T(!new)>(less: (T, T) -> bool)
  {
    && (forall x, y :: !less(x, y) || !less(y, x))
    && (forall x, y, z :: !less(y, x) && !less(z, y) ==> !less(z, x))
  }

  /** The result sort.Slice promises: no element is less than one before it. */
  ghost predicate SortedBy<T>(s: seq<T>, less: (T, T) -> bool)
  {
    forall i, j :: 0 <= i < j < |s| ==> !less(s[j], s[i])
  }

  method SortBy<T(!new)>(a: array<T>, less: (T, T) -> bool)
    requires StrictWeakOrder(less)
    modifies a
    ensures SortedBy(a[..], less)
    ensures multiset(a[..]) == multiset(old(a[..]))
  {
    var i := 1;
    while i < a.Length
      invariant a.Length == 0 || 1 <= i <= a.Length
      invariant forall p, q :: 0 <= p < q < i && q < a.Length ==> !less(a[q], a[p])
      invariant multiset(a[..]) == multiset(old(a[..]))
    {
      var j := i;
      while j > 0 && less(a[j], a[j - 1])
        invariant 0 <= j <= i < a.Length
        invariant forall p, q :: 0 <= p < q <= i && p != j && q != j ==> !less(a[q], a[p])
        invariant forall q :: j < q <= i ==> !less(a[q], a[j])
        invariant multiset(a[..]) == multiset(old(a[..]))
      {
        a[j - 1], a[j] := a[j], a[j - 1];
        j := j - 1;
      }
      i := i + 1;
    }
  }

  /** Go's `<` on strings is a strict weak ordering (indeed a strict total one). */
  lemma StringLessOrder()
    ensures StrictWeakOrder(Strings.Less)
  {
    forall x: string, y: string ensures !Strings.Less(x, y) || !Strings.Less(y, x) {
      Strings.LessTrichotomous(x, y);
    }
    forall x: string, y: string, z: string | !Strings.Less(y, x) && !Strings.Less(z, y)
      ensures !Strings.Less(z, x)
    {
      Strings.LessTrichotomous(x, y);
      Strings.LessTrichotomous(y, z);
      Strings.LessTrichotomous(x, z);
      if x != y && y != z {
        Strings.LessTransitive(x, y, z);
      }
    }
  }

  predicate Distinct<T(==)>(s: seq<T>)
  {
    forall i, j :: 0 <= i < j < |s| ==> s[i] != s[j]
  }

  /** A sequence holding every element at most once has no repeated element. */
  lemma DistinctFromMultiset<T>(s: seq<T>)
    requires forall x :: multiset(s)[x] <= 1
    ensures Distinct(s)
  {
    forall i, j | 0 <= i < j < |s| ensures s[i] != s[j] {
      assert s == s[..j] + [s[j]] + s[j + 1..];
      assert s[i] in s[..j];
      assert multiset(s) == multiset(s[..j]) + multiset{s[j]} + multiset(s[j + 1..]);
      assert multiset(s)[s[i]] <= 1;
      assert multiset(s[..j])[s[i]] >= 1;
      assert multiset(s)[s[j]] >= multiset(s[..j])[s[j]] + 1;
    }
  }

  /** Sorted by `<` on strings with no repeats means strictly ascending. */
  lemma SortedDistinctAscending(s: seq<string>)
    requires SortedBy(s, Strings.Less) && Distinct(s)
    ensures forall i, j :: 0 <= i < j < |s| ==> Strings.Less(s[i], s[j])
  {
    forall i, j | 0 <= i < j < |s| ensures Strings.Less(s[i], s[j]) {
      Strings.LessTrichotomous(s[i], s[j]);
    }
  }
}
