module SelectSort {
  import opened Bits
  import opened Widths
  import opened Sorting

  /** The first `i` cells hold the `i` smallest elements in order. */
  ghost predicate Settled(s: seq<int>, i: nat)
    requires i <= |s|
  {
    forall p, q | 0 <= p < i && p < q < |s| :: s[p] <= s[q]
  }

  /** A cell is never swapped with itself, which the XOR swap would clear. */
  method Sort(a: array<Int32>)
    requires a.Length < WORD
    modifies a
    ensures Sorted(a[..]) && multiset(a[..]) == multiset(old(a[..]))
  {
    var i := 0;
    while i < a.Length
      invariant 0 <= i <= a.Length && Settled(a[..], i)
      invariant multiset(a[..]) == multiset(old(a[..]))
    {
      var minIndex := i;
      var j := i + 1;
      while j < a.Length
        invariant i < j <= a.Length && i <= minIndex < a.Length
        invariant forall q | i <= q < j :: a[minIndex] <= a[q]
      {
        if a[j] < a[minIndex] {
          minIndex := j;
        }
        j := j + 1;
      }
      SettleNext(a[..], i, minIndex);
      if minIndex != i {
        SwapPermutes(a[..], i, minIndex);
        SwapValue(a, i, minIndex);
      }
      i := i + 1;
    }
  }

  lemma SettleNext(s: seq<int>, i: nat, m: nat)
    requires i <= m < |s| && Settled(s, i)
    requires forall q | i <= q < |s| :: s[m] <= s[q]
    ensures Settled(Swapped(s, i, m), i + 1)
  {
  }
}
