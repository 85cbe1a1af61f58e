/** The quicksort of user/quicksort.c, in place. */
module QuickSorting {

  /** t is s with the elements of [lo, hi) rearranged among themselves. */
  ghost predicate Rearranged(s: seq<int>, t: seq<int>, lo: int, hi: int) {
    && |t| == |s| && 0 <= lo <= hi <= |s|
    && t[..lo] == s[..lo] && t[hi..] == s[hi..]
    && multiset(t[lo..hi]) == multiset(s[lo..hi])
  }

  ghost predicate Sorted(s: seq<int>, lo: int, hi: int) {
    forall i, j :: 0 <= lo <= i <= j < hi <= |s| ==> s[i] <= s[j]
  }

  /** Up to j nothing is larger than s[j], from i on nothing smaller, and in between all are equal to it. */
  ghost predicate Banded(s: seq<int>, lo: int, j: int, i: int, hi: int) {
    && 0 <= lo <= j < i <= hi <= |s|
    && (forall k :: lo <= k < j ==> s[k] <= s[j])
    && (forall k :: j <= k < i ==> s[k] == s[j])
    && (forall k :: i <= k < hi ==> s[k] >= s[j])
  }

  lemma RearrangedRefl(s: seq<int>, lo: int, hi: int)
    requires 0 <= lo <= hi <= |s|
    ensures Rearranged(s, s, lo, hi)
  {
  }

  lemma RearrangedTrans(s: seq<int>, t: seq<int>, u: seq<int>, lo: int, hi: int)
    requires Rearranged(s, t, lo, hi) && Rearranged(t, u, lo, hi)
    ensures Rearranged(s, u, lo, hi)
  {
  }

  /** Rearranging a part rearranges the whole. */
  lemma RearrangedWider(s: seq<int>, t: seq<int>, lo: int, hi: int, lo': int, hi': int)
    requires Rearranged(s, t, lo, hi) && 0 <= lo' <= lo && hi <= hi' <= |s|
    ensures Rearranged(s, t, lo', hi')
  {
    assert t[..lo'] == t[..lo][..lo'] && s[..lo'] == s[..lo][..lo'];
    assert t[hi'..] == t[hi..][hi' - hi..] && s[hi'..] == s[hi..][hi' - hi..];
    Parts(s, lo, hi, lo', hi');
    Parts(t, lo, hi, lo', hi');
    assert t[lo'..lo] == t[..lo][lo'..] && s[lo'..lo] == s[..lo][lo'..];
    assert t[hi..hi'] == t[hi..][..hi' - hi] && s[hi..hi'] == s[hi..][..hi' - hi];
  }

  lemma Parts(s: seq<int>, lo: int, hi: int, lo': int, hi': int)
    requires 0 <= lo' <= lo <= hi <= hi' <= |s|
    ensures multiset(s[lo'..hi']) == multiset(s[lo'..lo]) + multiset(s[lo..hi]) + multiset(s[hi..hi'])
  {
    assert s[lo'..hi'] == s[lo'..lo] + s[lo..hi] + s[hi..hi'];
  }

  /** Swap. */
  lemma SwapRearranged(s: seq<int>, t: seq<int>, i: int, j: int, lo: int, hi: int)
    requires 0 <= lo <= i <= j < hi <= |s| && t == s[i := s[j]][j := s[i]]
    ensures Rearranged(s, t, lo, hi)
  {
    if i == j {
      assert t == s;
    } else {
      var a, m, b := s[lo..i], s[i + 1..j], s[j + 1..hi];
      assert s[lo..hi] == a + [s[i]] + m + [s[j]] + b;
      assert t[lo..hi] == a + [s[j]] + m + [s[i]] + b;
      SwapCount(a, m, b, s[i], s[j]);
    }
  }

  lemma SwapCount(a: seq<int>, m: seq<int>, b: seq<int>, x: int, y: int)
    ensures multiset(a + [x] + m + [y] + b) == multiset(a + [y] + m + [x] + b)
  {
    assert multiset(a + [x] + m + [y] + b) == multiset(a) + multiset{x} + multiset(m) + multiset{y} + multiset(b);
    assert multiset(a + [y] + m + [x] + b) == multiset(a) + multiset{y} + multiset(m) + multiset{x} + multiset(b);
  }

  /** Every element of the range was in the range before. */
  lemma RearrangedFrom(s: seq<int>, t: seq<int>, lo: int, hi: int, k: int)
    requires Rearranged(s, t, lo, hi) && lo <= k < hi
    ensures exists i :: lo <= i < hi && s[i] == t[k]
  {
    assert t[lo..hi][k - lo] == t[k];
    assert t[k] in multiset(t[lo..hi]);
    assert t[k] in multiset(s[lo..hi]);
    var i :| 0 <= i < |s[lo..hi]| && s[lo..hi][i] == t[k];
    assert s[lo + i] == t[k];
  }

  /** Sorting the two sides of the band sorts everything: the band itself needs no recursion. */
  lemma BandSorted(s: seq<int>, t: seq<int>, u: seq<int>, lo: int, j: int, i: int, hi: int)
    requires Banded(s, lo, j, i, hi)
    requires Rearranged(s, t, lo, j) && Sorted(t, lo, j)
    requires Rearranged(t, u, i, hi) && Sorted(u, i, hi)
    ensures Sorted(u, lo, hi) && Rearranged(s, u, lo, hi)
  {
    forall k | 0 <= k < i ensures u[k] == t[k] {
      assert u[..i][k] == t[..i][k];
    }
    forall k | j <= k < |s| ensures t[k] == s[k] {
      assert t[j..][k - j] == s[j..][k - j];
    }
    forall k | lo <= k < j ensures u[k] <= s[j] {
      RearrangedFrom(s, t, lo, j, k);
    }
    forall k | i <= k < hi ensures u[k] >= s[j] {
      RearrangedFrom(t, u, i, hi, k);
    }
    RearrangedWider(s, t, lo, j, lo, hi);
    RearrangedWider(t, u, i, hi, lo, hi);
    RearrangedTrans(s, t, u, lo, hi);
  }

  lemma SortedShort(s: seq<int>, lo: int, hi: int)
    requires hi <= lo + 1
    ensures Sorted(s, lo, hi)
  {
  }

  method Swap(elements: array<int>, first: int, second: int)
    requires 0 <= first < elements.Length && 0 <= second < elements.Length
    modifies elements
    ensures elements[..] == old(elements[..])[first := old(elements[second])][second := old(elements[first])]
  {
    var tmp := elements[first];
    elements[first] := elements[second];
    elements[second] := tmp;
  }

  /** A swap inside [lo, hi) of an array that is a rearrangement of s there. */
  method SwapWithin(elements: array<int>, first: int, second: int, ghost s: seq<int>, ghost lo: int, ghost hi: int)
    requires 0 <= lo <= first <= second < hi <= elements.Length && Rearranged(s, elements[..], lo, hi)
    modifies elements
    ensures Rearranged(s, elements[..], lo, hi)
    ensures elements[first] == old(elements[second]) && elements[second] == old(elements[first])
    ensures forall k :: 0 <= k < elements.Length && k != first && k != second ==> elements[k] == old(elements[k])
  {
    hide Rearranged;
    ghost var t := elements[..];
    Swap(elements, first, second);
    SwapRearranged(t, elements[..], first, second, lo, hi);
    RearrangedTrans(s, t, elements[..], lo, hi);
    assert forall k :: 0 <= k < elements.Length ==> elements[..][k] == elements[k] && t[k] == old(elements[k]);
  }

  /** The two inner loops: i stops at an element larger than the pivot, j at a smaller one. */
  method Approach(elements: array<int>, startIndex: int, finalIndex: int, i0: int, j0: int) returns (i: int, j: int)
    requires 0 <= startIndex < i0 <= finalIndex + 1 <= elements.Length && startIndex <= j0 <= finalIndex
    ensures i0 <= i <= finalIndex + 1 && startIndex <= j <= j0
    ensures forall k :: i0 <= k < i ==> elements[k] <= elements[startIndex]
    ensures forall k :: j < k <= j0 ==> elements[k] >= elements[startIndex]
    ensures i <= finalIndex ==> elements[i] > elements[startIndex]
    ensures j > startIndex ==> elements[j] < elements[startIndex]
  {
    i, j := i0, j0;
    while i <= finalIndex && elements[startIndex] >= elements[i]
      invariant i0 <= i <= finalIndex + 1
      invariant forall k :: i0 <= k < i ==> elements[k] <= elements[startIndex]
    {
      i := i + 1;
    }
    while j > startIndex && elements[startIndex] <= elements[j]
      invariant startIndex <= j <= j0
      invariant forall k :: j < k <= j0 ==> elements[k] >= elements[startIndex]
    {
      j := j - 1;
    }
  }

  /** The outer loop of QSort: it ends, because every round but the first moves i. */
  method Separate(elements: array<int>, startIndex: int, finalIndex: int) returns (i: int, j: int)
    requires 0 <= startIndex < finalIndex < elements.Length
    modifies elements
    ensures Rearranged(old(elements[..]), elements[..], startIndex, finalIndex + 1)
    ensures startIndex <= j < i <= finalIndex + 1
    ensures forall k :: startIndex <= k < i ==> elements[k] <= elements[startIndex]
    ensures forall k :: j < k <= finalIndex ==> elements[k] >= elements[startIndex]
  {
    ghost var s, p := elements[..], elements[startIndex];
    i, j := startIndex + 1, finalIndex;
    RearrangedRefl(s, startIndex, finalIndex + 1);
    hide Rearranged;
    while i <= j
      invariant startIndex < i <= finalIndex + 1 && startIndex <= j <= finalIndex
      invariant elements[startIndex] == p && Rearranged(s, elements[..], startIndex, finalIndex + 1)
      invariant forall k :: startIndex <= k < i ==> elements[k] <= p
      invariant forall k :: j < k <= finalIndex ==> elements[k] >= p
      decreases j - i + 1, if i <= finalIndex && elements[i] > p then 1 else 0
    {
      i, j := Approach(elements, startIndex, finalIndex, i, j);
      if i <= j {
        SwapWithin(elements, i, j, s, startIndex, finalIndex + 1);
      }
    }
  }

  /** The loop of QSort, and the swap after it. */
  method Partition(elements: array<int>, startIndex: int, finalIndex: int) returns (i: int, j: int)
    requires 0 <= startIndex < finalIndex < elements.Length
    modifies elements
    ensures Rearranged(old(elements[..]), elements[..], startIndex, finalIndex + 1)
    ensures startIndex <= j < i <= finalIndex + 1 && Banded(elements[..], startIndex, j, i, finalIndex + 1)
  {
    hide Rearranged;
    ghost var s := elements[..];
    i, j := Separate(elements, startIndex, finalIndex);
    SwapWithin(elements, startIndex, j, s, startIndex, finalIndex + 1);
  }

  /** QSort leaves its range a sorted permutation of what it was, and touches nothing outside it. */
  method QSort(elements: array<int>, startIndex: int, finalIndex: int)
    requires 0 <= startIndex <= finalIndex + 1 <= elements.Length
    modifies elements
    ensures Rearranged(old(elements[..]), elements[..], startIndex, finalIndex + 1)
    ensures Sorted(elements[..], startIndex, finalIndex + 1)
    decreases finalIndex - startIndex + 1
  {
    ghost var s := elements[..];
    RearrangedRefl(s, startIndex, finalIndex + 1);
    hide Rearranged, Sorted, Banded;
    if startIndex >= finalIndex {
      SortedShort(s, startIndex, finalIndex + 1);
      return;
    }
    var i, j := Partition(elements, startIndex, finalIndex);
    ghost var t := elements[..];
    QSort(elements, startIndex, j - 1);
    ghost var u := elements[..];
    QSort(elements, i, finalIndex);
    BandSorted(t, u, elements[..], startIndex, j, i, finalIndex + 1);
    RearrangedTrans(s, t, elements[..], startIndex, finalIndex + 1);
  }

  method QuickSort(elements: array<int>)
    modifies elements
    ensures multiset(elements[..]) == multiset(old(elements[..]))
    ensures forall i, j :: 0 <= i <= j < elements.Length ==> elements[i] <= elements[j]
  {
    ghost var s := elements[..];
    QSort(elements, 0, elements.Length - 1);
    assert elements[..][0..elements.Length] == elements[..] && s[0..elements.Length] == s;
    assert forall i, j :: 0 <= i <= j < elements.Length ==> elements[..][i] <= elements[..][j];
  }

  /** CheckSorted. */
  method CheckSorted(elements: array<int>) returns (sorted: bool)
    ensures sorted <==> forall i, j :: 0 <= i <= j < elements.Length ==> elements[i] <= elements[j]
  {
    sorted := true;
    var i := 0;
    while i < elements.Length - 1
      invariant 0 <= i && (elements.Length > 0 ==> i < elements.Length)
      invariant forall k, l :: 0 <= k <= l <= i && l < elements.Length ==> elements[k] <= elements[l]
    {
      if elements[i] > elements[i + 1] {
        return false;
      }
      i := i + 1;
    }
  }
}
