module InsertSort {
  import opened Bits
  import opened Widths
  import opened Sorting

  ghost predicate SortedTo(s: seq<int>, n: nat)
    requires n <= |s|
  {
    forall p, q | 0 <= p < q < n :: s[p] <= s[q]
  }

  /** The cells up to `i` are in order but for the hole `j`, and those right of the hole are
      larger than the value kept for it. */
  ghost predicate Ordered(v: seq<int>, i: nat, j: nat) {
    && j <= i < |v|
    && (forall p, q | 0 <= p < q <= i && p != j && q != j :: v[p] <= v[q])
    && (forall q | j < q <= i :: v[j] < v[q])
  }

  /** `v` is `start` after `shifts` exchanges of neighbours that were out of order. */
  ghost predicate Accounts(start: seq<int>, v: seq<int>, shifts: nat) {
    multiset(v) == multiset(start) && Inversions(v) + shifts == Inversions(start)
  }

  /** Moving the hole one cell left is an exchange of neighbours out of order. */
  lemma ShiftAccounts(start: seq<int>, v: seq<int>, j: nat, shifts: nat)
    requires 0 < j < |v| && v[j] < v[j - 1] && Accounts(start, v, shifts)
    ensures Accounts(start, Swapped(v, j - 1, j), shifts + 1)
  {
    InversionsSwap(v, j - 1);
    SwapPermutes(v, j - 1, j);
  }

  lemma ShiftOrders(v: seq<int>, i: nat, j: nat)
    requires Ordered(v, i, j) && 0 < j && v[j] < v[j - 1]
    ensures Ordered(Swapped(v, j - 1, j), i, j - 1)
  {
  }

  lemma Settles(v: seq<int>, i: nat, j: nat)
    requires Ordered(v, i, j) && (j > 0 ==> v[j - 1] <= v[j])
    ensures SortedTo(v, i + 1)
  {
    forall p | 0 <= p < j ensures v[p] <= v[j] {
      if p < j - 1 {
        assert v[p] <= v[j - 1];
      }
    }
  }

  lemma HoleMoves(s: seq<int>, j: nat, v: int)
    requires 0 < j < |s|
    ensures s[j := s[j - 1]][j - 1 := v] == Swapped(s[j := v], j - 1, j)
  {
  }

  /** Where the insertion of element `i` stands, with the hole at `j` and the hole's value in `tmp`. */
  ghost predicate Holding(start: seq<int>, now: seq<int>, i: nat, j: nat, tmp: int, shifts: nat) {
    j <= i < |now| && Ordered(now[j := tmp], i, j) && Accounts(start, now[j := tmp], shifts)
  }

  lemma HoldingMoves(start: seq<int>, now: seq<int>, i: nat, j: nat, tmp: int, shifts: nat)
    requires Holding(start, now, i, j, tmp, shifts) && 0 < j && tmp < now[j - 1]
    ensures Holding(start, now[j := now[j - 1]], i, j - 1, tmp, shifts + 1)
  {
    ShiftAccounts(start, now[j := tmp], j, shifts);
    ShiftOrders(now[j := tmp], i, j);
    HoleMoves(now, j, tmp);
  }

  /** Inserts element `i` into the sorted cells before it. */
  method Insert(a: array<Int32>, i: nat) returns (ghost shifts: nat, ghost comparisons: nat)
    requires 0 < i < a.Length && SortedTo(a[..], i)
    modifies a
    ensures SortedTo(a[..], i + 1)
    ensures Accounts(old(a[..]), a[..], shifts)
    ensures comparisons <= shifts + 1
  {
    var tmp := a[i];
    var j := i;
    shifts, comparisons := 0, 0;
    ghost var start := a[..];
    assert start[i := tmp] == start;
    while j > 0 && tmp < a[j - 1]
      invariant Holding(start, a[..], i, j, tmp, shifts)
      invariant comparisons == shifts
    {
      comparisons := comparisons + 1;
      ghost var now := a[..];
      HoldingMoves(start, now, i, j, tmp, shifts);
      shifts := shifts + 1;
      a[j] := a[j - 1];
      assert a[..] == now[j := now[j - 1]];
      j := j - 1;
    }
    if j > 0 {
      comparisons := comparisons + 1;
    }
    ghost var now := a[..];
    Settles(now[j := tmp], i, j);
    a[j] := tmp;
    assert a[..] == now[j := tmp];
  }

  /** Ends sorted; the shifts number exactly the inversions of the input, and beyond them
      there is at most one comparison per element, so a sorted input takes at most n - 1. */
  method Sort(a: array<Int32>) returns (ghost shifts: nat, ghost comparisons: nat)
    requires a.Length < WORD
    modifies a
    ensures Sorted(a[..]) && multiset(a[..]) == multiset(old(a[..]))
    ensures shifts == Inversions(old(a[..]))
    ensures comparisons <= shifts + (if a.Length == 0 then 0 else a.Length - 1)
    ensures Sorted(old(a[..])) ==> shifts == 0
  {
    shifts, comparisons := 0, 0;
    InversionsZero(a[..]);
    var i := 1;
    while i < a.Length
      invariant 1 <= i && (a.Length > 0 ==> i <= a.Length) && (a.Length == 0 ==> i == 1)
      invariant i <= a.Length ==> SortedTo(a[..], i)
      invariant Accounts(old(a[..]), a[..], shifts)
      invariant comparisons <= shifts + i - 1
    {
      var s, c := Insert(a, i);
      shifts, comparisons := shifts + s, comparisons + c;
      i := i + 1;
    }
    InversionsZero(a[..]);
  }
}
