/** What the sorts share: order, permutation by swaps, and inversions. */
module Sorting {
  import opened Bits
  import opened Widths

  ghost predicate Sorted(s: seq<int>) {
    forall i, j | 0 <= i < j < |s| :: s[i] <= s[j]
  }

  function Swapped<T>(s: seq<T>, i: nat, j: nat): (r: seq<T>)
    requires i < |s| && j < |s|
  {
    s[i := s[j]][j := s[i]]
  }

  lemma SwapPermutes<T>(s: seq<T>, i: nat, j: nat)
    requires i < |s| && j < |s|
    ensures multiset(Swapped(s, i, j)) == multiset(s)
  {
  }

  /** Two arrangements of the same elements, both in order, are the same sequence: "sorted
      permutation" leaves the sorts no freedom. */
  lemma {:induction false} SortedUnique(s: seq<int>, t: seq<int>)
    requires Sorted(s) && Sorted(t) && multiset(s) == multiset(t)
    ensures s == t
    decreases |s|
  {
    SameLength(s, t);
    if s != [] {
      var n := |s| - 1;
      LastIsMax(s, t);
      LastIsMax(t, s);
      DropLast(s);
      DropLast(t);
      SortedUnique(s[..n], t[..n]);
      assert s == s[..n] + [s[n]] && t == t[..n] + [t[n]];
    }
  }

  lemma SameLength<T>(s: seq<T>, t: seq<T>)
    requires multiset(s) == multiset(t)
    ensures |s| == |t|
  {
    assert |multiset(s)| == |s| && |multiset(t)| == |t|;
  }

  lemma SplitMultiset<T>(s: seq<T>, m: nat)
    requires m <= |s|
    ensures multiset(s) == multiset(s[..m]) + multiset(s[m..])
  {
    assert s == s[..m] + s[m..];
  }

  lemma DropLast<T>(s: seq<T>)
    requires s != []
    ensures multiset(s[..|s| - 1]) == multiset(s) - multiset{s[|s| - 1]}
  {
    assert s == s[..|s| - 1] + [s[|s| - 1]];
  }

  lemma LastIsMax(s: seq<int>, t: seq<int>)
    requires multiset(s) == multiset(t) && s != [] && t != []
    requires forall i | 0 <= i < |s| :: s[i] <= s[|s| - 1]
    ensures t[|t| - 1] <= s[|s| - 1]
  {
    assert t[|t| - 1] in multiset(t);
    assert t[|t| - 1] in multiset(s);
  }

  // ---------------------------------------------------------------- the XOR swap

  function ToBits(x: Int32): Word {
    if x < 0 then x + WORD else x
  }

  function FromBits(w: Word): Int32 {
    if w <= INT_MAX then w else w - WORD
  }

  /** C's `^` on two's-complement `int`. */
  function XorInt(x: Int32, y: Int32): (r: Int32)
    ensures ToBits(r) == Xor(ToBits(x), ToBits(y))
  {
    XorIsWord(ToBits(x), ToBits(y));
    FromBits(Xor(ToBits(x), ToBits(y)))
  }

  lemma XorIsWord(x: Word, y: Word)
    ensures Xor(x, y) < WORD
  {
    Pow2Word();
    XorBelow(x, y, 32);
  }

  lemma XorIntCancels(x: Int32, y: Int32)
    ensures XorInt(XorInt(x, y), y) == x
    ensures XorInt(XorInt(x, y), x) == y
    ensures XorInt(x, x) == 0
  {
    XorCancels(ToBits(x), ToBits(y));
    XorCancels(ToBits(y), ToBits(x));
    XorCommutes(ToBits(x), ToBits(y));
    XorSelf(ToBits(x));
  }

  /** `swap_value`: three exclusive-ors exchange two cells, and clear a cell swapped with
      itself. */
  method SwapValue(a: array<Int32>, i: nat, j: nat)
    requires i < a.Length && j < a.Length
    modifies a
    ensures i != j ==> a[..] == Swapped(old(a[..]), i, j)
    ensures i == j ==> a[..] == old(a[..])[i := 0]
  {
    XorIntCancels(a[i], a[j]);
    XorIntCancels(0, 0);
    a[i] := XorInt(a[i], a[j]);
    a[j] := XorInt(a[i], a[j]);
    a[i] := XorInt(a[i], a[j]);
  }

  // ---------------------------------------------------------------- inversions

  /** How many elements of `s` exceed `v`. */
  function Above(s: seq<int>, v: int): nat {
    if s == [] then 0
    else Above(s[..|s| - 1], v) + (if s[|s| - 1] > v then 1 else 0)
  }

  /** How many pairs are out of order. */
  function Inversions(s: seq<int>): nat {
    if s == [] then 0
    else Inversions(s[..|s| - 1]) + Above(s[..|s| - 1], s[|s| - 1])
  }

  ghost function InversionPairs(s: seq<int>): set<(int, int)> {
    set i, j | 0 <= i < j < |s| && s[i] > s[j] :: (i, j)
  }

  ghost function AboveAt(s: seq<int>, v: int): set<int> {
    set i | 0 <= i < |s| && s[i] > v
  }

  lemma {:induction false} AboveCounts(s: seq<int>, v: int)
    ensures Above(s, v) == |AboveAt(s, v)|
  {
    if s != [] {
      var n := |s| - 1;
      AboveCounts(s[..n], v);
      assert AboveAt(s, v) == AboveAt(s[..n], v) + (if s[n] > v then {n} else {});
    }
  }

  ghost function Paired<T>(a: set<T>, n: int): set<(T, int)> {
    set i | i in a :: (i, n)
  }

  /** The recursive count is the number of pairs of positions out of order. */
  lemma {:induction false} InversionsCountPairs(s: seq<int>)
    ensures Inversions(s) == |InversionPairs(s)|
  {
    if s != [] {
      var n := |s| - 1;
      InversionsCountPairs(s[..n]);
      AboveCounts(s[..n], s[n]);
      PairsWith(AboveAt(s[..n], s[n]), n);
      PairsSplit(s);
      DisjointSize(InversionPairs(s[..n]), Paired(AboveAt(s[..n], s[n]), n));
    }
  }

  lemma PairsSplit(s: seq<int>)
    requires s != []
    ensures var n := |s| - 1;
      && InversionPairs(s) == InversionPairs(s[..n]) + Paired(AboveAt(s[..n], s[n]), n)
      && InversionPairs(s[..n]) !! Paired(AboveAt(s[..n], s[n]), n)
  {
  }

  lemma DisjointSize<T>(a: set<T>, b: set<T>)
    requires a !! b
    ensures |a + b| == |a| + |b|
  {
  }

  lemma {:induction false} PairsWith<T>(a: set<T>, n: int)
    ensures |Paired(a, n)| == |a|
    decreases a
  {
    var image := Paired(a, n);
    if a == {} {
      assert image == {};
    } else {
      var x :| x in a;
      PairsWith(a - {x}, n);
      var rest := Paired(a - {x}, n);
      forall p | p in image ensures p in rest + {(x, n)} {
        assert p == (x, n) || p.0 in a - {x};
      }
      assert image == rest + {(x, n)};
    }
  }

  lemma {:induction false} InversionsZero(s: seq<int>)
    ensures Inversions(s) == 0 <==> Sorted(s)
  {
    if s != [] {
      var n := |s| - 1;
      InversionsZero(s[..n]);
      AboveCounts(s[..n], s[n]);
      if Inversions(s) == 0 {
        assert AboveAt(s[..n], s[n]) == {};
        forall i | 0 <= i < n ensures s[i] <= s[n] {
          assert i !in AboveAt(s[..n], s[n]);
        }
      }
      if Sorted(s) {
        assert AboveAt(s[..n], s[n]) == {};
      }
    }
  }

  /** Exchanging two neighbours leaves the count of larger elements alone. */
  lemma {:induction false} AboveSwap(s: seq<int>, k: nat, v: int)
    requires k + 1 < |s|
    ensures Above(Swapped(s, k, k + 1), v) == Above(s, v)
  {
    var n := |s| - 1;
    var t := Swapped(s, k, k + 1);
    if k + 1 < n {
      AboveSwap(s[..n], k, v);
      assert t[..n] == Swapped(s[..n], k, k + 1);
    } else {
      assert t[..n][..k] == s[..n][..k];
    }
  }

  /** Exchanging neighbours that are out of order removes exactly one inversion. */
  lemma {:induction false} InversionsSwap(s: seq<int>, k: nat)
    requires k + 1 < |s| && s[k] > s[k + 1]
    ensures Inversions(Swapped(s, k, k + 1)) == Inversions(s) - 1
  {
    var n := |s| - 1;
    var t := Swapped(s, k, k + 1);
    if k + 1 < n {
      InversionsSwap(s[..n], k);
      AboveSwap(s[..n], k, s[n]);
      assert t[..n] == Swapped(s[..n], k, k + 1);
    } else {
      assert t[..n][..k] == s[..n][..k];
      assert t[..n] == s[..n][..k] + [s[n]] && s[..n] == s[..n][..k] + [s[k]];
    }
  }

  /** At most n(n-1)/2 pairs can be out of order. */
  lemma {:induction false} InversionsBound(s: seq<int>)
    ensures 2 * Inversions(s) <= |s| * (|s| - 1)
  {
    if s != [] {
      var n := |s| - 1;
      InversionsBound(s[..n]);
      AboveBound(s[..n], s[n]);
      assert |s| * (|s| - 1) == n * (n - 1) + 2 * n;
    }
  }

  lemma {:induction false} AboveBound(s: seq<int>, v: int)
    ensures Above(s, v) <= |s|
  {
    if s != [] {
      AboveBound(s[..|s| - 1], v);
    }
  }
}
