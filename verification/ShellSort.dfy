module ShellSort {
  import opened Widths
  import opened Sorting
  import Bits

  /** Elements `g` apart are in order. */
  ghost predicate GapOrdered(s: seq<int>, g: nat) {
    forall p, q | 0 <= p && q == p + g && q < |s| :: s[p] <= s[q]
  }

  // ------------------------------------------------ counting along one residue class

  /** Among `s[t], s[t - h], s[t - 2h], ...`, how many exceed `v`. */
  function AboveAlong(s: seq<int>, t: int, h: nat, v: int): nat
    requires h > 0 && t < |s|
    decreases t
  {
    if t < 0 then 0 else (if s[t] > v then 1 else 0) + AboveAlong(s, t - h, h, v)
  }

  /** `t` is `p` or some steps of `h` above it. */
  predicate Reaches(t: int, p: int, h: nat)
    requires h > 0
    decreases t - p
  {
    t == p || (t > p && Reaches(t - h, p, h))
  }

  function StepsDown(t: int, p: int, h: nat): nat
    requires h > 0
    decreases t - p
  {
    if t <= p then 0 else 1 + StepsDown(t - h, p, h)
  }

  function TopOf(p: int, h: nat, n: int): (t: int)
    requires h > 0 && p < n
    ensures p <= t < n <= t + h
    decreases n - p
  {
    if p + h >= n then p else TopOf(p + h, h, n)
  }

  /** Every residue class modulo `h` holds the same elements in `s` and `t`. */
  ghost predicate SameClasses(s: seq<int>, t: seq<int>, h: nat)
    requires h > 0
  {
    |s| == |t| && forall i, v | 0 <= i < |s| <= i + h :: AboveAlong(s, i, h, v) == AboveAlong(t, i, h, v)
  }

  lemma {:induction false} ReachesThrough(t: int, r: int, p: int, h: nat)
    requires h > 0 && Reaches(t, r, h) && Reaches(r, p, h)
    ensures Reaches(t, p, h) && StepsDown(t, p, h) == StepsDown(t, r, h) + StepsDown(r, p, h)
    ensures p <= r <= t
    decreases t - p
  {
    ReachesUp(r, p, h);
    if t != r {
      ReachesThrough(t - h, r, p, h);
    }
  }

  lemma {:induction false} ReachesUp(t: int, p: int, h: nat)
    requires h > 0 && Reaches(t, p, h)
    ensures p <= t
    decreases t - p
  {
    if t != p {
      ReachesUp(t - h, p, h);
    }
  }

  lemma {:induction false} ReachesShifted(t: int, p: int, g: int, h: nat)
    requires h > 0 && Reaches(t, p, h)
    ensures Reaches(t - g, p - g, h) && StepsDown(t - g, p - g, h) == StepsDown(t, p, h)
    decreases t - p
  {
    if t != p {
      ReachesShifted(t - h, p, g, h);
    }
  }

  lemma {:induction false} TopReaches(p: int, h: nat, n: int)
    requires h > 0 && p < n
    ensures Reaches(TopOf(p, h, n), p, h)
    decreases n - p
  {
    if p + h < n {
      TopReaches(p + h, h, n);
      assert Reaches(p + h, p, h) by { assert Reaches(p, p, h); }
      ReachesThrough(TopOf(p, h, n), p + h, p, h);
    }
  }

  lemma {:induction false} TopOfReached(r: int, p: int, h: nat, n: int)
    requires h > 0 && Reaches(r, p, h) && r < n
    ensures p < n && Reaches(TopOf(p, h, n), r, h)
    decreases r - p
  {
    ReachesUp(r, p, h);
    if r == p {
      TopReaches(p, h, n);
    } else {
      SameTop(r, p, h, n);
      TopReaches(r, h, n);
    }
  }

  lemma {:induction false} SameTop(r: int, p: int, h: nat, n: int)
    requires h > 0 && Reaches(r, p, h) && p <= r < n
    ensures TopOf(p, h, n) == TopOf(r, h, n)
    decreases r - p
  {
    if r != p {
      ReachesUp(r - h, p, h);
      SameTop(r - h, p, h, n);
    }
  }

  /** In an h-ordered sequence nothing below a small element of the class is large. */
  lemma {:induction false} NoneAbove(s: seq<int>, q: int, h: nat, v: int)
    requires h > 0 && q < |s| && GapOrdered(s, h) && (q >= 0 ==> s[q] <= v)
    ensures AboveAlong(s, q, h, v) == 0
    decreases q
  {
    if q >= 0 {
      if q - h >= 0 {
        assert s[q - h] <= s[q - h + h];
      }
      NoneAbove(s, q - h, h, v);
    }
  }

  lemma {:induction false} FewAbove(s: seq<int>, t: int, q: int, h: nat, v: int)
    requires h > 0 && 0 <= q && t < |s| && Reaches(t, q, h) && GapOrdered(s, h) && s[q] <= v
    ensures AboveAlong(s, t, h, v) <= StepsDown(t, q, h)
    decreases t - q
  {
    if t == q {
      NoneAbove(s, q, h, v);
    } else {
      ReachesUp(t - h, q, h);
      FewAbove(s, t - h, q, h, v);
    }
  }

  lemma {:induction false} ManyAbove(s: seq<int>, t: int, p: int, h: nat, v: int)
    requires h > 0 && 0 <= p && t < |s| && Reaches(t, p, h) && GapOrdered(s, h) && s[p] > v
    ensures s[t] > v && AboveAlong(s, t, h, v) >= StepsDown(t, p, h) + 1
    decreases t - p
  {
    if t != p {
      ReachesUp(t - h, p, h);
      ManyAbove(s, t - h, p, h, v);
      assert s[t - h] <= s[t - h + h];
    }
  }

  lemma {:induction false} AboveBetween(s: seq<int>, t: int, r: int, h: nat, v: int)
    requires h > 0 && 0 <= r && t < |s| && Reaches(t, r, h)
    ensures r < |s| && AboveAlong(s, t, h, v) <= AboveAlong(s, r, h, v) + StepsDown(t, r, h)
    decreases t - r
  {
    if t != r {
      ReachesUp(t - h, r, h);
      AboveBetween(s, t - h, r, h, v);
    }
  }

  /** In a g-ordered sequence the class `g` higher has at least as many large elements. */
  lemma {:induction false} AboveShifted(s: seq<int>, t: int, g: nat, h: nat, v: int)
    requires h > 0 && t < |s| && GapOrdered(s, g)
    ensures AboveAlong(s, t - g, h, v) <= AboveAlong(s, t, h, v)
    decreases t
  {
    if t - g >= 0 {
      assert s[t - g] <= s[t - g + g];
      AboveShifted(s, t - h, g, h, v);
    }
  }

  /** The theorem shell sort rests on: h-sorting each class of a g-ordered sequence leaves it
      g-ordered. */
  lemma GapKept(s: seq<int>, t: seq<int>, g: nat, h: nat)
    requires h > 0 && GapOrdered(s, g) && SameClasses(s, t, h) && GapOrdered(t, h)
    ensures GapOrdered(t, g)
  {
    forall p | 0 <= p && p + g < |t| ensures t[p] <= t[p + g] {
      GapKeptAt(s, t, g, h, p);
    }
  }

  lemma GapKeptAt(s: seq<int>, t: seq<int>, g: nat, h: nat, p: nat)
    requires h > 0 && GapOrdered(s, g) && SameClasses(s, t, h) && GapOrdered(t, h)
    requires p + g < |t|
    ensures t[p] <= t[p + g]
  {
    var n, q, v := |t|, p + g, t[p + g];
    var topQ, topP := TopOf(q, h, n), TopOf(p, h, n);
    var r := topQ - g;
    assert AboveAlong(s, topQ, h, v) == AboveAlong(t, topQ, h, v);
    assert AboveAlong(s, topP, h, v) == AboveAlong(t, topP, h, v);
    TopReaches(q, h, n);
    TopReaches(p, h, n);
    FewAbove(t, topQ, q, h, v);
    ReachesShifted(topQ, q, g, h);
    TopOfReached(r, p, h, n);
    ReachesThrough(topP, r, p, h);
    AboveBetween(s, topP, r, h, v);
    AboveShifted(s, topQ, g, h, v);
    if t[p] > v {
      ManyAbove(t, topP, p, h, v);
    }
  }

  // ------------------------------------------------ exchanges within a class

  lemma {:induction false} AboveFrame(s: seq<int>, t: seq<int>, i: int, h: nat, v: int)
    requires h > 0 && |s| == |t| && i < |s| && forall k | 0 <= k <= i :: s[k] == t[k]
    ensures AboveAlong(s, i, h, v) == AboveAlong(t, i, h, v)
    decreases i
  {
    if i >= 0 {
      AboveFrame(s, t, i - h, h, v);
    }
  }

  lemma {:induction false} AboveExchange(s: seq<int>, k: nat, h: nat, i: int, v: int)
    requires h > 0 && k + h < |s| && i < |s| && i != k
    ensures AboveAlong(Swapped(s, k, k + h), i, h, v) == AboveAlong(s, i, h, v)
    decreases i
  {
    var t := Swapped(s, k, k + h);
    if i == k + h {
      AboveFrame(s, t, k - h, h, v);
      assert AboveAlong(s, k, h, v) == (if s[k] > v then 1 else 0) + AboveAlong(s, k - h, h, v);
      assert AboveAlong(t, k, h, v) == (if t[k] > v then 1 else 0) + AboveAlong(t, k - h, h, v);
    } else if i >= 0 {
      AboveExchange(s, k, h, i - h, v);
    }
  }

  lemma ExchangeSameClasses(start: seq<int>, s: seq<int>, k: nat, h: nat)
    requires h > 0 && k + h < |s| && SameClasses(start, s, h)
    ensures SameClasses(start, Swapped(s, k, k + h), h)
  {
    var t := Swapped(s, k, k + h);
    forall i, v | 0 <= i < |start| <= i + h ensures AboveAlong(start, i, h, v) == AboveAlong(t, i, h, v) {
      AboveExchange(s, k, h, i, v);
    }
  }

  // ------------------------------------------------ one pass

  /** `t` is `s` with elements exchanged only inside residue classes modulo `h`. */
  ghost predicate Rearranged(s: seq<int>, t: seq<int>, h: nat)
    requires h > 0
  {
    SameClasses(s, t, h) && multiset(t) == multiset(s)
  }

  lemma ExchangeRearranges(start: seq<int>, s: seq<int>, k: nat, h: nat)
    requires h > 0 && k + h < |s| && Rearranged(start, s, h)
    ensures Rearranged(start, Swapped(s, k, k + h), h)
  {
    ExchangeSameClasses(start, s, k, h);
    SwapPermutes(s, k, k + h);
  }

  /** The residue of `p` modulo `h`. */
  function Class(p: nat, h: nat): (c: nat)
    requires h > 0
    ensures c < h
  {
    if p < h then p else Class(p - h, h)
  }

  lemma {:induction false} ClassesDistinct(p: nat, q: nat, h: nat)
    requires h > 0 && p < q < p + h
    ensures Class(p, h) != Class(q, h)
    decreases p
  {
    if p >= h {
      ClassesDistinct(p - h, q - h, h);
    }
  }

  /** Class `c` is in order up to index `n`. */
  ghost predicate ClassOrdered(s: seq<int>, h: nat, c: int, n: int)
    requires h > 0 && n <= |s|
  {
    forall p, q | 0 <= p && q == p + h && q < n && Class(p, h) == c :: s[p] <= s[q]
  }

  /** Class of `x` in order up to and including `j`, but for the hole at `x`; what is above
      the hole is larger than the value kept for it. */
  ghost predicate Chained(v: seq<int>, h: nat, j: nat, x: nat)
    requires h > 0
  {
    && x <= j < |v|
    && (forall p, q | 0 <= p && q == p + h && q <= j && Class(p, h) == Class(x, h) && p != x && q != x :: v[p] <= v[q])
    && (x + h <= j ==> v[x] < v[x + h])
    && (x + h <= j && x >= h ==> v[x - h] <= v[x + h])
  }

  lemma ChainMoves(v: seq<int>, h: nat, j: nat, x: nat)
    requires h > 0 && Chained(v, h, j, x) && x >= h && v[x] < v[x - h]
    ensures Chained(Swapped(v, x - h, x), h, j, x - h)
  {
    assert Class(x - h, h) == Class(x, h);
    assert x - h >= h ==> Class(x - h - h, h) == Class(x - h, h);
  }

  lemma ChainSettles(v: seq<int>, h: nat, j: nat, x: nat)
    requires h > 0 && Chained(v, h, j, x) && (x >= h ==> v[x - h] <= v[x])
    ensures ClassOrdered(v, h, Class(x, h), j + 1)
  {
    forall p, q | 0 <= p && q == p + h && q < j + 1 && Class(p, h) == Class(x, h) ensures v[p] <= v[q] {
      if p == x {
        assert v[x] < v[x + h];
      } else if q == x {
        assert v[x - h] <= v[x];
      }
    }
  }

  /** The classes below `c` are in order throughout. */
  ghost predicate ClassesOrdered(s: seq<int>, h: nat, c: int)
    requires h > 0
  {
    forall p, q | 0 <= p && q == p + h && q < |s| && Class(p, h) < c :: s[p] <= s[q]
  }

  lemma OtherClassesKept(v: seq<int>, h: nat, k: nat, c: int)
    requires h > 0 && k + h < |v| && c <= Class(k, h) && ClassesOrdered(v, h, c)
    ensures ClassesOrdered(Swapped(v, k, k + h), h, c)
  {
    var t := Swapped(v, k, k + h);
  }

  /** Where the insertion of element `j` stands with the hole at `k + h`. */
  ghost predicate Inserting(start: seq<int>, v: seq<int>, h: nat, j: nat, k: int)
    requires h > 0
  {
    && 0 <= k + h <= j < |v|
    && Class(k + h, h) == Class(j, h)
    && Chained(v, h, j, k + h)
    && ClassesOrdered(v, h, Class(j, h))
    && Rearranged(start, v, h)
  }

  lemma InsertingMoves(start: seq<int>, v: seq<int>, h: nat, j: nat, k: int)
    requires h > 0 && Inserting(start, v, h, j, k) && k >= 0 && v[k + h] < v[k]
    ensures Inserting(start, Swapped(v, k, k + h), h, j, k - h)
  {
    ChainMoves(v, h, j, k + h);
    OtherClassesKept(v, h, k, Class(j, h));
    ExchangeRearranges(start, v, k, h);
  }

  /** The same with the hole's value kept aside in `tmp`. */
  ghost predicate Holding(start: seq<int>, s: seq<int>, h: nat, j: nat, k: int, tmp: int)
    requires h > 0
  {
    0 <= k + h < |s| && Inserting(start, s[k + h := tmp], h, j, k)
  }

  lemma HoldingMoves(start: seq<int>, s: seq<int>, h: nat, j: nat, k: nat, tmp: int)
    requires h > 0 && Holding(start, s, h, j, k, tmp) && tmp < s[k]
    ensures Holding(start, s[k + h := s[k]], h, j, k - h, tmp)
  {
    InsertingMoves(start, s[k + h := tmp], h, j, k);
    assert s[k + h := s[k]][k := tmp] == Swapped(s[k + h := tmp], k, k + h);
  }

  /** Before element `j` is looked at: lower classes done, its own in order below it. */
  ghost predicate Unplaced(start: seq<int>, s: seq<int>, h: nat, j: nat)
    requires h > 0
  {
    && j < |s| && Rearranged(start, s, h)
    && ClassesOrdered(s, h, Class(j, h)) && ClassOrdered(s, h, Class(j, h), j)
  }

  ghost predicate Placed(start: seq<int>, s: seq<int>, h: nat, j: nat)
    requires h > 0
  {
    && j < |s| && Rearranged(start, s, h)
    && ClassesOrdered(s, h, Class(j, h)) && ClassOrdered(s, h, Class(j, h), j + 1)
  }

  lemma HoldingBegins(start: seq<int>, s: seq<int>, h: nat, j: nat)
    requires 0 < h <= j && Unplaced(start, s, h, j)
    ensures Holding(start, s, h, j, j - h, s[j])
  {
    assert s[j := s[j]] == s;
  }

  lemma HoldingEnds(start: seq<int>, s: seq<int>, h: nat, j: nat, k: int, tmp: int)
    requires h > 0 && Holding(start, s, h, j, k, tmp) && (k >= 0 ==> s[k] <= tmp)
    ensures Placed(start, s[k + h := tmp], h, j)
  {
    ChainSettles(s[k + h := tmp], h, j, k + h);
  }

  /** Moves element `j` down its class to where it belongs, comparing it once with each element
      it meets. */
  method Insert(a: array<Int32>, h: nat, j: nat, ghost start: seq<int>) returns (ghost comparisons: nat)
    requires 0 < h <= j < a.Length <= INT_MAX
    requires Unplaced(start, a[..], h, j)
    modifies a
    ensures Placed(start, a[..], h, j)
    ensures h * comparisons <= j
  {
    var tmp := a[j];
    var k: int := j - h;
    comparisons := 0;
    HoldingBegins(start, a[..], h, j);
    while k >= 0 && tmp < a[k]
      invariant 0 <= k + h <= j
      invariant k + h + h * comparisons == j
      invariant Holding(start, a[..], h, j, k, tmp)
      decreases k + h
    {
      ghost var before := a[..];
      HoldingMoves(start, before, h, j, k, tmp);
      a[k + h] := a[k];
      assert a[..] == before[k + h := before[k]];
      k := k - h;
      comparisons := comparisons + 1;
    }
    if k >= 0 {
      comparisons := comparisons + 1;
    }
    HoldingEnds(start, a[..], h, j, k, tmp);
    ghost var before := a[..];
    a[k + h] := tmp;
    assert a[..] == before[k + h := tmp];
  }

  /** The classes below `c` are done. */
  ghost predicate Done(start: seq<int>, s: seq<int>, h: nat, c: nat)
    requires h > 0
  {
    Rearranged(start, s, h) && ClassesOrdered(s, h, c)
  }

  /** Where the walk along class `c` stands at index `j`. */
  ghost predicate Walking(start: seq<int>, s: seq<int>, h: nat, c: nat, j: nat)
    requires h > 0
  {
    Class(j, h) == c && if j < |s| then Unplaced(start, s, h, j) else Done(start, s, h, c + 1)
  }

  lemma WalkBegins(start: seq<int>, s: seq<int>, h: nat, c: nat)
    requires c < h && Done(start, s, h, c)
    ensures Walking(start, s, h, c, c + h)
  {
    assert Class(c, h) == c;
  }

  lemma AlreadyPlaced(start: seq<int>, s: seq<int>, h: nat, j: nat)
    requires 0 < h <= j && Unplaced(start, s, h, j) && s[j - h] <= s[j]
    ensures Placed(start, s, h, j)
  {
  }

  /** Between `j` and `j + h` the class has no further element. */
  lemma WalkAdvances(start: seq<int>, s: seq<int>, h: nat, j: nat)
    requires 0 < h <= j && Placed(start, s, h, j)
    ensures Walking(start, s, h, Class(j, h), j + h)
  {
    NoneBetween(h, j);
    ClassExtends(s, h, j, if j + h < |s| then j + h else |s|);
    if j + h >= |s| {
      ClassJoins(s, h, Class(j, h));
    }
  }

  lemma NoneBetween(h: nat, j: nat)
    requires 0 < h <= j
    ensures forall p | j - h < p < j :: Class(p, h) != Class(j, h)
  {
    forall p | j - h < p < j ensures Class(p, h) != Class(j, h) {
      ClassesDistinct(j - h, p, h);
    }
  }

  lemma ClassExtends(s: seq<int>, h: nat, j: nat, n: nat)
    requires 0 < h <= j < n <= |s| && n <= j + h && ClassOrdered(s, h, Class(j, h), j + 1)
    requires forall p | j - h < p < j :: Class(p, h) != Class(j, h)
    ensures ClassOrdered(s, h, Class(j, h), n)
  {
  }

  lemma ClassJoins(s: seq<int>, h: nat, c: nat)
    requires h > 0 && ClassesOrdered(s, h, c) && ClassOrdered(s, h, c, |s|)
    ensures ClassesOrdered(s, h, c + 1)
  {
  }

  lemma DoneIsOrdered(start: seq<int>, s: seq<int>, h: nat)
    requires h > 0 && Done(start, s, h, h)
    ensures GapOrdered(s, h)
  {
  }

  /** What a pass has cost after `seen` elements, `c` whole classes and the part of the next
      class that spans `part` cells. */
  ghost predicate Cost(n: nat, h: nat, comparisons: nat, seen: nat, c: nat, part: nat) {
    h * comparisons <= 2 * (n * seen) && h * seen <= c * n + part
  }

  lemma CostGrows(n: nat, h: nat, comparisons: nat, seen: nat, c: nat, j: nat, tests: nat)
    requires c + h <= j < n && Cost(n, h, comparisons, seen, c, j - h - c) && h * tests <= j
    ensures Cost(n, h, comparisons + 1 + tests, seen + 1, c, j - c)
  {
    assert h * (comparisons + 1 + tests) == h * comparisons + h + h * tests;
    assert n * (seen + 1) == n * seen + n && h * (seen + 1) == h * seen + h;
  }

  lemma CostOfClass(n: nat, h: nat, comparisons: nat, seen: nat, c: nat, part: nat)
    requires Cost(n, h, comparisons, seen, c, part) && part <= n
    ensures Cost(n, h, comparisons, seen, c + 1, 0)
  {
    assert (c + 1) * n == c * n + n;
  }

  lemma SmallerFactor(h: nat, a: nat, b: nat)
    requires h > 0 && h * a <= h * b
    ensures a <= b
  {
    assert h * (a - b) == h * a - h * b;
    if a > b {
      Bits.MulAtLeast(h, a - b);
    }
  }

  lemma CostOfPass(n: nat, h: nat, comparisons: nat, seen: nat)
    requires h > 0 && Cost(n, h, comparisons, seen, h, 0)
    ensures h * comparisons <= 2 * (n * n)
  {
    SmallerFactor(h, seen, n);
    assert n * seen <= n * n;
  }

  /** Puts every element of one class in order. */
  method WalkClass(a: array<Int32>, h: nat, i: Int32, ghost start: seq<int>, ghost before: nat, ghost seenBefore: nat)
    returns (ghost comparisons: nat, ghost seen: nat)
    requires 0 <= i < h && a.Length - 1 + h <= INT_MAX && 2 * h - 1 <= INT_MAX
    requires Done(start, a[..], h, i) && Cost(a.Length, h, before, seenBefore, i, 0)
    modifies a
    ensures Done(start, a[..], h, i + 1) && Cost(a.Length, h, comparisons, seen, i + 1, 0)
  {
    comparisons, seen := before, seenBefore;
    var j: Int32 := i + h;
    WalkBegins(start, a[..], h, i);
    while j < a.Length
      invariant i + h <= j <= a.Length + h + i
      invariant Walking(start, a[..], h, i, j)
      invariant Cost(a.Length, h, comparisons, seen, i, j - h - i)
    {
      ghost var tests: nat := 0;
      if a[j] < a[j - h] {
        tests := Insert(a, h, j, start);
      } else {
        AlreadyPlaced(start, a[..], h, j);
      }
      WalkAdvances(start, a[..], h, j);
      CostGrows(a.Length, h, comparisons, seen, i, j, tests);
      comparisons, seen := comparisons + 1 + tests, seen + 1;
      j := j + h;
    }
    CostOfClass(a.Length, h, comparisons, seen, i, j - h - i);
  }

  /** One pass with gap `h`: the array becomes h-ordered, stays g-ordered for every gap `g`
      for which it already was, and is permuted. The wider the gap, the fewer comparisons. */
  method Pass(a: array<Int32>, h: nat) returns (ghost comparisons: nat)
    requires h > 0 && a.Length - 1 + h <= INT_MAX && 2 * h - 1 <= INT_MAX
    modifies a
    ensures GapOrdered(a[..], h)
    ensures forall g: nat :: GapOrdered(old(a[..]), g) ==> GapOrdered(a[..], g)
    ensures multiset(a[..]) == multiset(old(a[..]))
    ensures h * comparisons <= 2 * (a.Length * a.Length)
  {
    ghost var start := a[..];
    ghost var seen: nat := 0;
    comparisons := 0;
    var i: Int32 := 0;
    while i < h
      invariant 0 <= i <= h
      invariant Done(start, a[..], h, i)
      invariant Cost(a.Length, h, comparisons, seen, i, 0)
    {
      comparisons, seen := WalkClass(a, h, i, start, comparisons, seen);
      i := i + 1;
    }
    CostOfPass(a.Length, h, comparisons, seen);
    DoneIsOrdered(start, a[..], h);
    AllGapsKept(start, a[..], h);
  }

  lemma AllGapsKept(s: seq<int>, t: seq<int>, h: nat)
    requires h > 0 && SameClasses(s, t, h) && GapOrdered(t, h)
    ensures forall g: nat :: GapOrdered(s, g) ==> GapOrdered(t, g)
  {
    forall g: nat | GapOrdered(s, g) ensures GapOrdered(t, g) {
      GapKept(s, t, g, h);
    }
  }

  // ------------------------------------------------ the sort

  /** The gaps used for a length: each is a third of the one before plus one, down to 1. */
  ghost predicate GapSequence(len: nat, gaps: seq<nat>) {
    && gaps != [] && gaps[0] == len / 3 + 1 && gaps[|gaps| - 1] == 1
    && Thirds(gaps)
  }

  ghost predicate Thirds(gaps: seq<nat>) {
    forall i, j | 0 <= i && j == i + 1 && j < |gaps| :: gaps[j] == gaps[i] / 3 + 1 && gaps[j] < gaps[i]
  }

  lemma {:induction false} GapOneSorts(s: seq<int>)
    requires GapOrdered(s, 1)
    ensures Sorted(s)
  {
    forall i, j | 0 <= i < j < |s| ensures s[i] <= s[j] {
      GapOneChain(s, i, j);
    }
  }

  lemma {:induction false} GapOneChain(s: seq<int>, i: nat, j: nat)
    requires GapOrdered(s, 1) && i < j < |s|
    ensures s[i] <= s[j]
    decreases j
  {
    assert s[j - 1] <= s[j - 1 + 1];
    if i < j - 1 {
      GapOneChain(s, i, j - 1);
    }
  }

  lemma Scaled(a: nat, b: nat, c: nat)
    requires a <= b
    ensures a * c <= b * c
  {
  }

  /** The passes together: what is spent falls with the gap that is reached. */
  lemma CostFalls(n: nat, before: nat, h: nat, spent: nat, comparisons: nat)
    requires before > 1 && h == before / 3 + 1
    requires before * spent <= 6 * (n * n) && h * comparisons <= 2 * (n * n)
    ensures h * (spent + comparisons) <= 6 * (n * n)
  {
    assert h * (spent + comparisons) == h * spent + h * comparisons;
    if h == 1 {
      Scaled(2, before, spent);
    } else {
      Scaled(3 * (h - 1), before, spent);
      Scaled(h, 2 * (h - 1), spent);
      assert (3 * (h - 1)) * spent == 3 * ((h - 1) * spent) && (2 * (h - 1)) * spent == 2 * ((h - 1) * spent);
    }
  }

  /** What has been paid for the passes down to the gap `rule`. */
  ghost predicate Paid(n: nat, gaps: seq<nat>, rule: nat, comparisons: nat) {
    if gaps == [] then comparisons == 0 else rule * comparisons <= 6 * (n * n)
  }

  lemma PaidNext(n: nat, gaps: seq<nat>, before: nat, rule: nat, comparisons: nat, cost: nat)
    requires Paid(n, gaps, before, comparisons) && rule == before / 3 + 1 && rule * cost <= 2 * (n * n)
    requires gaps != [] ==> before > 1
    ensures Paid(n, gaps + [rule], rule, comparisons + cost)
    ensures rule == 1 ==> comparisons + cost <= 6 * (n * n)
  {
    if gaps != [] {
      CostFalls(n, before, rule, comparisons, cost);
    }
  }

  /** The size limit is what `j += rule` needs to stay within `int`. The number of comparisons is
      quadratic at worst. */
  method Sort(a: array<Int32>) returns (ghost gaps: seq<nat>, ghost comparisons: nat)
    requires a.Length + a.Length / 3 <= INT_MAX
    modifies a
    ensures Sorted(a[..]) && multiset(a[..]) == multiset(old(a[..]))
    ensures GapSequence(a.Length, gaps)
    ensures AllOrdered(a[..], gaps)
    ensures comparisons <= 6 * (a.Length * a.Length)
  {
    var rule := a.Length;
    gaps, comparisons := [], 0;
    while true
      invariant 0 <= rule <= a.Length
      invariant Phase(old(a[..]), a[..], gaps, rule)
      invariant Paid(a.Length, gaps, rule, comparisons)
      decreases rule, gaps == []
    {
      ghost var before, last := a[..], rule;
      rule := rule / 3 + 1;
      ghost var cost := Pass(a, rule);
      PhaseNext(old(a[..]), before, a[..], gaps, last, rule);
      PaidNext(a.Length, gaps, last, rule, comparisons, cost);
      comparisons := comparisons + cost;
      gaps := gaps + [rule];
      if rule <= 1 {
        break;
      }
    }
    GapOneSorts(a[..]);
  }

  ghost predicate Phase(start: seq<int>, s: seq<int>, gaps: seq<nat>, rule: nat) {
    && |s| == |start| && multiset(s) == multiset(start)
    && AllOrdered(s, gaps)
    && (if gaps == [] then rule == |s| else rule > 1 && gaps[0] == |s| / 3 + 1 && gaps[|gaps| - 1] == rule)
    && Thirds(gaps)
  }

  ghost predicate AllOrdered(s: seq<int>, gaps: seq<nat>) {
    forall i | 0 <= i < |gaps| :: GapOrdered(s, gaps[i])
  }

  lemma PhaseNext(start: seq<int>, s: seq<int>, t: seq<int>, gaps: seq<nat>, before: nat, rule: nat)
    requires Phase(start, s, gaps, before) && rule == before / 3 + 1
    requires multiset(t) == multiset(s) && GapOrdered(t, rule)
    requires forall g: nat :: GapOrdered(s, g) ==> GapOrdered(t, g)
    ensures rule > 1 ==> Phase(start, t, gaps + [rule], rule)
    ensures rule <= 1 ==> GapSequence(|t|, gaps + [rule]) && AllOrdered(t, gaps + [rule])
  {
    SameLength(s, t);
  }
}
