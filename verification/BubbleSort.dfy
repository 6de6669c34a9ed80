module BubbleSort {
  import opened Bits
  import opened Widths
  import opened Sorting

  /** Among the first `n` elements, each one from position `k` on is at least everything
      before it. */
  ghost predicate FinalIn(s: seq<int>, n: nat, k: nat)
    requires n <= |s|
  {
    forall p, q | 0 <= p < q < n && k <= q :: s[p] <= s[q]
  }

  /** From position `k` on, every element is at least everything before it. */
  ghost predicate FinalFrom(s: seq<int>, k: nat) {
    FinalIn(s, |s|, k)
  }

  /** Such a suffix is already what the sorted array will hold there. */
  lemma {:induction false} FinalPosition(s: seq<int>, t: seq<int>, k: nat)
    requires FinalFrom(s, k) && Sorted(t) && multiset(s) == multiset(t) && k <= |s|
    ensures |t| == |s| && s[k..] == t[k..]
    decreases |s|
  {
    SameLength(s, t);
    if k < |s| {
      var n := |s| - 1;
      SameLast(s, t, k);
      FinalPosition(s[..n], t[..n], k);
      assert s[k..] == s[..n][k..] + [s[n]] && t[k..] == t[..n][k..] + [t[n]];
    }
  }

  /** The last elements agree, and the rest is such a pair again. */
  lemma SameLast(s: seq<int>, t: seq<int>, k: nat)
    requires FinalFrom(s, k) && Sorted(t) && multiset(s) == multiset(t) && k < |s| == |t|
    ensures var n := |s| - 1;
      && s[n] == t[n] && multiset(s[..n]) == multiset(t[..n])
      && FinalFrom(s[..n], k) && Sorted(t[..n])
  {
    FinalShorter(s, k);
    SortedShorter(t);
    LastIsMax(s, t);
    LastIsMax(t, s);
    DropLast(s);
    DropLast(t);
  }

  lemma FinalShorter(s: seq<int>, k: nat)
    requires FinalFrom(s, k) && k < |s|
    ensures FinalFrom(s[..|s| - 1], k)
    ensures forall i | 0 <= i < |s| :: s[i] <= s[|s| - 1]
  {
  }

  lemma SortedShorter(t: seq<int>)
    requires Sorted(t) && t != []
    ensures Sorted(t[..|t| - 1])
    ensures forall i | 0 <= i < |t| :: t[i] <= t[|t| - 1]
  {
  }

  /** Where a pass over `start[..hi]` stands once `now[..lo]` has been compared. */
  ghost predicate Passing(start: seq<int>, now: seq<int>, lo: nat, hi: nat, last: nat, swaps: nat) {
    && |now| == |start| && 0 < lo <= hi <= |now| && last < lo
    && FinalIn(now, lo, last) && FinalFrom(now, hi)
    && multiset(now) == multiset(start)
    && Inversions(now) + swaps == Inversions(start)
    && (last > 0 <==> swaps > 0)
    && (swaps == 0 ==> now == start)
  }

  /** One pass over the first `hi` cells, comparing neighbours from the left. Everything
      from the last swap on is then in its final position. */
  method Pass(a: array<Int32>, hi: nat) returns (last: nat, ghost swaps: nat, ghost comparisons: nat)
    requires 0 < hi <= a.Length && FinalFrom(a[..], hi)
    modifies a
    ensures last < hi && FinalFrom(a[..], last)
    ensures multiset(a[..]) == multiset(old(a[..]))
    ensures Inversions(a[..]) + swaps == Inversions(old(a[..]))
    ensures comparisons == hi - 1
    ensures last > 0 <==> swaps > 0
    ensures swaps == 0 ==> a[..] == old(a[..])
  {
    var lo := 0;
    last := lo;
    swaps, comparisons := 0, 0;
    lo := lo + 1;
    PassBegins(a[..], hi);
    while lo < hi
      invariant Passing(old(a[..]), a[..], lo, hi, last, swaps)
      invariant comparisons == lo - 1
    {
      comparisons := comparisons + 1;
      last, swaps := Compare(a, lo, hi, last, old(a[..]), swaps);
      lo := lo + 1;
    }
    PassEnds(old(a[..]), a[..], hi, last, swaps);
  }

  /** Compares neighbours and exchanges them if they are out of order. */
  method Compare(a: array<Int32>, lo: nat, hi: nat, last: nat, ghost start: seq<int>, ghost swaps: nat)
    returns (last': nat, ghost swaps': nat)
    requires Passing(start, a[..], lo, hi, last, swaps) && lo < hi
    modifies a
    ensures Passing(start, a[..], lo + 1, hi, last', swaps')
  {
    last', swaps' := last, swaps;
    if a[lo - 1] > a[lo] {
      PassSwaps(start, a[..], lo, hi, last, swaps);
      last', swaps' := lo, swaps + 1;
      SwapValue(a, lo - 1, lo);
    } else {
      PassKeeps(start, a[..], lo, hi, last, swaps);
    }
  }

  lemma PassBegins(start: seq<int>, hi: nat)
    requires 0 < hi <= |start| && FinalFrom(start, hi)
    ensures Passing(start, start, 1, hi, 0, 0)
  {
  }

  lemma PassSwaps(start: seq<int>, now: seq<int>, lo: nat, hi: nat, last: nat, swaps: nat)
    requires Passing(start, now, lo, hi, last, swaps) && lo < hi && now[lo - 1] > now[lo]
    ensures Passing(start, Swapped(now, lo - 1, lo), lo + 1, hi, lo, swaps + 1)
  {
    SwapAccounts(start, now, lo, swaps);
    SwapCarriesMax(now, lo, last);
    SwapKeepsSuffix(now, lo, hi);
  }

  lemma SwapAccounts(start: seq<int>, now: seq<int>, lo: nat, swaps: nat)
    requires 0 < lo < |now| && now[lo - 1] > now[lo]
    requires multiset(now) == multiset(start) && Inversions(now) + swaps == Inversions(start)
    ensures multiset(Swapped(now, lo - 1, lo)) == multiset(start)
    ensures Inversions(Swapped(now, lo - 1, lo)) + swaps + 1 == Inversions(start)
  {
    InversionsSwap(now, lo - 1);
    SwapPermutes(now, lo - 1, lo);
  }

  lemma SwapCarriesMax(s: seq<int>, lo: nat, last: nat)
    requires last < lo < |s| && FinalIn(s, lo, last) && s[lo - 1] > s[lo]
    ensures FinalIn(Swapped(s, lo - 1, lo), lo + 1, lo)
  {
  }

  lemma SwapKeepsSuffix(s: seq<int>, lo: nat, hi: nat)
    requires 0 < lo < hi <= |s| && FinalFrom(s, hi)
    ensures FinalFrom(Swapped(s, lo - 1, lo), hi)
  {
  }

  lemma PassKeeps(start: seq<int>, now: seq<int>, lo: nat, hi: nat, last: nat, swaps: nat)
    requires Passing(start, now, lo, hi, last, swaps) && lo < hi && now[lo - 1] <= now[lo]
    ensures Passing(start, now, lo + 1, hi, last, swaps)
  {
    assert forall p | 0 <= p < lo - 1 :: now[p] <= now[lo - 1];
  }

  lemma PassEnds(start: seq<int>, now: seq<int>, hi: nat, last: nat, swaps: nat)
    requires Passing(start, now, hi, hi, last, swaps)
    ensures last < hi && FinalFrom(now, last) && multiset(now) == multiset(start)
    ensures Inversions(now) + swaps == Inversions(start) && (last > 0 <==> swaps > 0) && (swaps == 0 ==> now == start)
  {
    PassDone(now, hi, last);
  }

  lemma PassDone(s: seq<int>, hi: nat, last: nat)
    requires last < hi <= |s| && FinalIn(s, hi, last) && FinalFrom(s, hi)
    ensures FinalFrom(s, last)
  {
  }

  /** Ends sorted; the swaps number exactly the inversions of the input; at most n(n-1)/2
      comparisons, and n - 1 in a single pass if the input is sorted already. */
  method Sort(a: array<Int32>) returns (ghost swaps: nat, ghost comparisons: nat, ghost passes: nat)
    requires a.Length < WORD
    modifies a
    ensures Sorted(a[..]) && multiset(a[..]) == multiset(old(a[..]))
    ensures swaps == Inversions(old(a[..]))
    ensures 2 * comparisons <= a.Length * (a.Length - 1)
    ensures Sorted(old(a[..])) && a.Length > 0 ==> passes == 1 && comparisons == a.Length - 1
  {
    var hi := a.Length;
    swaps, comparisons, passes := 0, 0, 0;
    InversionsZero(a[..]);
    while 0 < hi
      invariant 0 <= hi <= a.Length && FinalFrom(a[..], hi)
      invariant multiset(a[..]) == multiset(old(a[..]))
      invariant Inversions(a[..]) + swaps == Inversions(old(a[..]))
      invariant 2 * comparisons + hi * (hi - 1) <= a.Length * (a.Length - 1)
      invariant passes == 0 ==> hi == a.Length && comparisons == 0
      invariant Sorted(old(a[..])) ==>
        if passes == 0 then a[..] == old(a[..]) else hi == 0 && passes == 1 && comparisons == a.Length - 1
    {
      var last, s, c := Pass(a, hi);
      Triangle(last, hi);
      swaps, comparisons, passes := swaps + s, comparisons + c, passes + 1;
      hi := last;
    }
    InversionsZero(a[..]);
  }

  lemma Triangle(last: nat, hi: nat)
    requires last < hi
    ensures last * (last - 1) + 2 * (hi - 1) <= hi * (hi - 1)
    decreases hi - last
  {
    if last + 1 < hi {
      Triangle(last + 1, hi);
      assert (last + 1) * last == last * (last - 1) + 2 * last;
    } else {
      assert hi * (hi - 1) == last * (last - 1) + 2 * last;
    }
  }
}
