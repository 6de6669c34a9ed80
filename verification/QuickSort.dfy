module QuickSort {
  import opened Widths
  import opened Sorting

  /** Equal outside `[lo, hi)`, and a permutation. */
  ghost predicate RangePermuted(s: seq<int>, t: seq<int>, lo: nat, hi: nat) {
    && |s| == |t| && lo <= hi <= |s|
    && multiset(t) == multiset(s)
    && forall p | 0 <= p < |s| && !(lo <= p < hi) :: t[p] == s[p]
  }

  ghost predicate SortedIn(s: seq<int>, lo: nat, hi: nat)
    requires hi <= |s|
  {
    forall p, q | lo <= p < q < hi :: s[p] <= s[q]
  }

  ghost predicate AtMost(s: seq<int>, lo: nat, hi: nat, v: int)
    requires hi <= |s|
  {
    forall p | lo <= p < hi :: s[p] <= v
  }

  ghost predicate AtLeast(s: seq<int>, lo: nat, hi: nat, v: int)
    requires hi <= |s|
  {
    forall p | lo <= p < hi :: s[p] >= v
  }

  // ------------------------------------------------ partition around a moving hole

  /** With the pivot put back into the hole `x`: everything left of `i` is at most the pivot,
      everything right of `j` at least, nothing is lost. */
  ghost predicate Splitting(s: seq<int>, now: seq<int>, lo: nat, hi: nat, i: nat, j: nat, x: nat, pivot: int) {
    && |now| == |s| && lo <= i <= j < hi <= |s| && i <= x <= j
    && var v := now[x := pivot];
       RangePermuted(s, v, lo, hi) && AtMost(v, lo, i, pivot) && AtLeast(v, j + 1, hi, pivot)
  }

  lemma FillLeft(s: seq<int>, now: seq<int>, lo: nat, hi: nat, i: nat, j: nat, pivot: int)
    requires Splitting(s, now, lo, hi, i, j, i, pivot) && i < j && now[j] <= pivot
    ensures Splitting(s, now[i := now[j]], lo, hi, i + 1, j, j, pivot)
  {
    var v := now[i := pivot];
    var v' := now[i := now[j]][j := pivot];
    assert v' == Swapped(v, i, j);
    SwapPermutes(v, i, j);
  }

  lemma FillRight(s: seq<int>, now: seq<int>, lo: nat, hi: nat, i: nat, j: nat, pivot: int)
    requires Splitting(s, now, lo, hi, i, j, j, pivot) && i < j && now[i] >= pivot
    ensures Splitting(s, now[j := now[i]], lo, hi, i, j - 1, i, pivot)
  {
    var v := now[j := pivot];
    var v' := now[j := now[i]][i := pivot];
    assert v' == Swapped(v, i, j);
    SwapPermutes(v, i, j);
  }

  lemma StepDown(s: seq<int>, now: seq<int>, lo: nat, hi: nat, i: nat, j: nat, pivot: int)
    requires Splitting(s, now, lo, hi, i, j, i, pivot) && i < j && now[j] > pivot
    ensures Splitting(s, now, lo, hi, i, j - 1, i, pivot)
  {
  }

  lemma StepUp(s: seq<int>, now: seq<int>, lo: nat, hi: nat, i: nat, j: nat, pivot: int)
    requires Splitting(s, now, lo, hi, i, j, j, pivot) && i < j && now[i] < pivot
    ensures Splitting(s, now, lo, hi, i + 1, j, j, pivot)
  {
  }

  lemma SplitBegins(s: seq<int>, lo: nat, hi: nat)
    requires lo < hi <= |s|
    ensures Splitting(s, s, lo, hi, lo, hi - 1, lo, s[lo])
  {
    assert s[lo := s[lo]] == s;
  }

  /** Left of the final position everything is at most the pivot, right of it at least;
      duplicates may be on either side. Each comparison moves one end, so there are exactly
      `end - start` of them. */
  method Partition(a: array<Int32>, start: int, end: int) returns (i: int, ghost comparisons: nat)
    requires 0 <= start < end < a.Length <= INT_MAX
    modifies a
    ensures start <= i <= end
    ensures RangePermuted(old(a[..]), a[..], start, end + 1)
    ensures AtMost(a[..], start, i, a[i]) && AtLeast(a[..], i + 1, end + 1, a[i])
    ensures a[i] == old(a[start])
    ensures comparisons == end - start
  {
    ghost var s := a[..];
    var basis := a[start];
    i := start;
    var j := end;
    comparisons := 0;
    SplitBegins(s, start, end + 1);
    while i < j
      invariant Splitting(s, a[..], start, end + 1, i, j, i, basis)
      invariant comparisons == end - start - (j - i)
      decreases j - i
    {
      ghost var width := j - i;
      while i < j && a[j] > basis
        invariant Splitting(s, a[..], start, end + 1, i, j, i, basis)
        invariant comparisons == end - start - (j - i)
        invariant j - i <= width
      {
        StepDown(s, a[..], start, end + 1, i, j, basis);
        comparisons := comparisons + 1;
        j := j - 1;
      }
      if i < j {
        comparisons := comparisons + 1;
        FillLeft(s, a[..], start, end + 1, i, j, basis);
        ghost var now := a[..];
        a[i] := a[j];
        assert a[..] == now[i := now[j]];
        i := i + 1;
      }
      assert j - i < width;
      while i < j && a[i] < basis
        invariant Splitting(s, a[..], start, end + 1, i, j, j, basis)
        invariant comparisons == end - start - (j - i)
        invariant j - i < width
      {
        StepUp(s, a[..], start, end + 1, i, j, basis);
        comparisons := comparisons + 1;
        i := i + 1;
      }
      if i < j {
        comparisons := comparisons + 1;
        FillRight(s, a[..], start, end + 1, i, j, basis);
        ghost var now := a[..];
        a[j] := a[i];
        assert a[..] == now[j := now[i]];
        j := j - 1;
      }
    }
    ghost var now := a[..];
    SplitEnds(s, now, start, end + 1, i, basis);
    a[i] := basis;
    assert a[..] == now[i := basis];
  }

  lemma SplitEnds(s: seq<int>, now: seq<int>, lo: nat, hi: nat, i: nat, pivot: int)
    requires Splitting(s, now, lo, hi, i, i, i, pivot)
    ensures var v := now[i := pivot];
      RangePermuted(s, v, lo, hi) && AtMost(v, lo, i, pivot) && AtLeast(v, i + 1, hi, pivot)
  {
  }

  // ------------------------------------------------ recursion

  lemma RangeMultiset(s: seq<int>, t: seq<int>, lo: nat, hi: nat)
    requires RangePermuted(s, t, lo, hi)
    ensures multiset(s[lo..hi]) == multiset(t[lo..hi])
  {
    ThreeParts(s, lo, hi);
    ThreeParts(t, lo, hi);
    assert s[..lo] == t[..lo] && s[hi..] == t[hi..];
  }

  lemma ThreeParts(s: seq<int>, lo: nat, hi: nat)
    requires lo <= hi <= |s|
    ensures multiset(s[lo..hi]) == multiset(s) - multiset(s[..lo]) - multiset(s[hi..])
  {
    assert s == s[..lo] + s[lo..hi] + s[hi..];
  }

  lemma AtMostKept(s: seq<int>, t: seq<int>, lo: nat, hi: nat, v: int)
    requires RangePermuted(s, t, lo, hi) && AtMost(s, lo, hi, v)
    ensures AtMost(t, lo, hi, v)
  {
    RangeMultiset(s, t, lo, hi);
    forall p | lo <= p < hi ensures t[p] <= v {
      assert t[lo..hi][p - lo] in multiset(t[lo..hi]);
      assert t[p] in s[lo..hi];
    }
  }

  lemma AtLeastKept(s: seq<int>, t: seq<int>, lo: nat, hi: nat, v: int)
    requires RangePermuted(s, t, lo, hi) && AtLeast(s, lo, hi, v)
    ensures AtLeast(t, lo, hi, v)
  {
    RangeMultiset(s, t, lo, hi);
    forall p | lo <= p < hi ensures t[p] >= v {
      assert t[lo..hi][p - lo] in multiset(t[lo..hi]);
      assert t[p] in s[lo..hi];
    }
  }

  lemma Joined(s: seq<int>, lo: nat, i: nat, hi: nat)
    requires lo <= i < hi <= |s| && SortedIn(s, lo, i) && SortedIn(s, i + 1, hi)
    requires AtMost(s, lo, i, s[i]) && AtLeast(s, i + 1, hi, s[i])
    ensures SortedIn(s, lo, hi)
  {
    forall p, q | lo <= p < q < hi ensures s[p] <= s[q] {
      assert p < i ==> s[p] <= s[i];
      assert i < q ==> s[i] <= s[q];
    }
  }

  lemma PermutedThrough(s: seq<int>, t: seq<int>, u: seq<int>, lo: nat, hi: nat, lo': nat, hi': nat)
    requires RangePermuted(s, t, lo, hi) && RangePermuted(t, u, lo', hi') && lo <= lo' <= hi' <= hi
    ensures RangePermuted(s, u, lo, hi)
  {
  }

  /** Partition, then sort left, then sort right. */
  lemma Assembled(s0: seq<int>, s1: seq<int>, s2: seq<int>, s3: seq<int>, lo: nat, i: nat, hi: nat)
    requires RangePermuted(s0, s1, lo, hi) && lo <= i < hi
    requires AtMost(s1, lo, i, s1[i]) && AtLeast(s1, i + 1, hi, s1[i])
    requires RangePermuted(s1, s2, lo, i) && SortedIn(s2, lo, i)
    requires RangePermuted(s2, s3, i + 1, hi) && SortedIn(s3, i + 1, hi)
    ensures RangePermuted(s0, s3, lo, hi) && SortedIn(s3, lo, hi)
  {
    AtMostKept(s1, s2, lo, i, s1[i]);
    AtLeastKept(s2, s3, i + 1, hi, s1[i]);
    PermutedThrough(s0, s1, s2, lo, hi, lo, i);
    PermutedThrough(s0, s2, s3, lo, hi, i + 1, hi);
    Joined(s3, lo, i, hi);
  }

  lemma WorstCase(l: nat, r: nat)
    ensures 2 * (l + r) + l * (l - 1) + r * (r - 1) <= (l + r + 1) * (l + r)
  {
    assert (l + r + 1) * (l + r) == l * l + 2 * (l * r) + r * r + l + r;
    assert l * r >= 0;
  }

  /** Sorts `a[start..end]` inclusive; at most n(n-1)/2 comparisons on n elements. */
  method Recursion(a: array<Int32>, start: int, end: int) returns (ghost comparisons: nat)
    requires 0 <= start <= end + 1 <= a.Length <= INT_MAX
    modifies a
    ensures RangePermuted(old(a[..]), a[..], start, end + 1) && SortedIn(a[..], start, end + 1)
    ensures 2 * comparisons <= (end - start + 1) * (end - start)
    decreases end - start
  {
    comparisons := 0;
    if start >= end {
      return;
    }
    ghost var s0 := a[..];
    var i, c := Partition(a, start, end);
    ghost var s1 := a[..];
    var l := Recursion(a, start, i - 1);
    ghost var s2 := a[..];
    var r := Recursion(a, i + 1, end);
    Assembled(s0, s1, s2, a[..], start, i, end + 1);
    WorstCase(i - start, end - i);
    comparisons := c + l + r;
  }

  method Sort(a: array<Int32>) returns (ghost comparisons: nat)
    requires a.Length <= INT_MAX
    modifies a
    ensures Sorted(a[..]) && multiset(a[..]) == multiset(old(a[..]))
    ensures 2 * comparisons <= a.Length * (a.Length - 1)
  {
    comparisons := Recursion(a, 0, a.Length - 1);
  }
}
