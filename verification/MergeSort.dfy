module MergeSort {
  import opened Bits
  import opened Widths
  import opened Sorting

  /** An element with the position it started from. The program moves bare values; the tags
      say which element it moved. */
  datatype Item = Item(value: int, origin: nat)

  function Values(s: seq<Item>): (r: seq<int>)
    ensures |r| == |s|
  {
    seq(|s|, i requires 0 <= i < |s| => s[i].value)
  }

  function Tagged(s: seq<int>): (r: seq<Item>)
    ensures |r| == |s|
    ensures forall i | 0 <= i < |s| :: r[i] == Item(s[i], i)
  {
    if s == [] then [] else Tagged(s[..|s| - 1]) + [Item(s[|s| - 1], |s| - 1)]
  }

  /** The left element wins ties. */
  function Merge(l: seq<Item>, r: seq<Item>): seq<Item> {
    if l == [] then r
    else if r == [] || l[0].value <= r[0].value then [l[0]] + Merge(l[1..], r)
    else [r[0]] + Merge(l, r[1..])
  }

  function SortItems(s: seq<Item>): seq<Item>
    decreases |s|
  {
    if |s| <= 1 then s else Merge(SortItems(s[..|s| / 2]), SortItems(s[|s| / 2..]))
  }

  // ------------------------------------------------ stability

  predicate Before(x: Item, y: Item) {
    x.value < y.value || (x.value == y.value && x.origin < y.origin)
  }

  ghost predicate StablySorted(s: seq<Item>) {
    forall i, j | 0 <= i < j < |s| :: Before(s[i], s[j])
  }

  ghost predicate OriginsAscend(s: seq<Item>) {
    forall i, j | 0 <= i < j < |s| :: s[i].origin < s[j].origin
  }

  ghost predicate OriginsBelow(l: seq<Item>, r: seq<Item>) {
    forall x, y | x in l && y in r :: x.origin < y.origin
  }

  lemma MergeLeft(l: seq<Item>, r: seq<Item>)
    requires l != [] && (r == [] || l[0].value <= r[0].value)
    ensures Merge(l, r) == [l[0]] + Merge(l[1..], r)
    ensures Values(Merge(l, r)) == [l[0].value] + Values(Merge(l[1..], r))
  {
  }

  lemma MergeRight(l: seq<Item>, r: seq<Item>)
    requires l != [] && r != [] && l[0].value > r[0].value
    ensures Merge(l, r) == [r[0]] + Merge(l, r[1..])
    ensures Values(Merge(l, r)) == [r[0].value] + Values(Merge(l, r[1..]))
  {
    ValuesCons(r[0], Merge(l, r[1..]));
  }

  lemma ValuesCons(x: Item, s: seq<Item>)
    ensures Values([x] + s) == [x.value] + Values(s)
  {
  }

  lemma HeadCount<T>(s: seq<T>, x: T)
    requires s != []
    ensures multiset(s)[x] == multiset(s[1..])[x] + (if s[0] == x then 1 else 0)
  {
    assert s == [s[0]] + s[1..];
  }

  lemma ConsCount<T>(h: T, t: seq<T>, x: T)
    ensures multiset([h] + t)[x] == multiset(t)[x] + (if h == x then 1 else 0)
  {
  }

  lemma {:induction false} MergeCount(l: seq<Item>, r: seq<Item>, x: Item)
    ensures multiset(Merge(l, r))[x] == multiset(l)[x] + multiset(r)[x]
  {
    if l == [] {
    } else if r == [] || l[0].value <= r[0].value {
      MergeCount(l[1..], r, x);
      MergeLeft(l, r);
      ConsCount(l[0], Merge(l[1..], r), x);
      HeadCount(l, x);
    } else {
      MergeCount(l, r[1..], x);
      MergeRight(l, r);
      ConsCount(r[0], Merge(l, r[1..]), x);
      HeadCount(r, x);
    }
  }

  lemma MergePermutes(l: seq<Item>, r: seq<Item>)
    ensures multiset(Merge(l, r)) == multiset(l) + multiset(r)
  {
    forall x ensures multiset(Merge(l, r))[x] == multiset(l)[x] + multiset(r)[x] {
      MergeCount(l, r, x);
    }
  }

  lemma {:induction false} SortPermutes(s: seq<Item>)
    ensures multiset(SortItems(s)) == multiset(s)
    decreases |s|
  {
    if |s| > 1 {
      var l, r := s[..|s| / 2], s[|s| / 2..];
      SortPermutes(l);
      SortPermutes(r);
      MergePermutes(SortItems(l), SortItems(r));
      SplitMultiset(s, |s| / 2);
    }
  }

  lemma InMerge(l: seq<Item>, r: seq<Item>, x: Item)
    requires x in Merge(l, r)
    ensures x in l || x in r
  {
    MergePermutes(l, r);
    assert x in multiset(Merge(l, r));
    assert x in multiset(l) || x in multiset(r);
  }

  lemma {:induction false} PrependStable(x: Item, s: seq<Item>)
    requires StablySorted(s) && forall y | y in s :: Before(x, y)
    ensures StablySorted([x] + s)
  {
    var t := [x] + s;
    forall i, j | 0 <= i < j < |t| ensures Before(t[i], t[j]) {
      assert t[j] == s[j - 1];
      if i > 0 {
        assert t[i] == s[i - 1];
      }
    }
  }

  lemma {:induction false} MergeStable(l: seq<Item>, r: seq<Item>)
    requires StablySorted(l) && StablySorted(r) && OriginsBelow(l, r)
    ensures StablySorted(Merge(l, r))
  {
    if l == [] {
    } else if r == [] || l[0].value <= r[0].value {
      MergeStable(l[1..], r);
      forall y | y in Merge(l[1..], r) ensures Before(l[0], y) {
        InMerge(l[1..], r, y);
        if y in r {
          assert r[0].value <= y.value by { HeadLeast(r, y); }
        } else {
          HeadLeast(l, y);
        }
      }
      PrependStable(l[0], Merge(l[1..], r));
    } else {
      MergeStable(l, r[1..]);
      forall y | y in Merge(l, r[1..]) ensures Before(r[0], y) {
        InMerge(l, r[1..], y);
        if y in l {
          HeadLeast(l, y);
        } else {
          HeadLeast(r, y);
        }
      }
      PrependStable(r[0], Merge(l, r[1..]));
    }
  }

  lemma HeadLeast(s: seq<Item>, y: Item)
    requires StablySorted(s) && y in s
    ensures s[0].value <= y.value
    ensures y in s[1..] ==> Before(s[0], y)
  {
    if y in s[1..] {
      var i :| 0 <= i < |s[1..]| && s[1..][i] == y;
      assert Before(s[0], s[i + 1]);
    }
  }

  lemma {:induction false} SortStable(s: seq<Item>)
    requires OriginsAscend(s)
    ensures StablySorted(SortItems(s))
    decreases |s|
  {
    if |s| > 1 {
      var m := |s| / 2;
      SortStable(s[..m]);
      SortStable(s[m..]);
      SortPermutes(s[..m]);
      SortPermutes(s[m..]);
      forall x, y | x in SortItems(s[..m]) && y in SortItems(s[m..]) ensures x.origin < y.origin {
        assert x in multiset(s[..m]) && y in multiset(s[m..]);
      }
      MergeStable(SortItems(s[..m]), SortItems(s[m..]));
    }
  }

  /** Stability: tagging each element with its position, the result is strictly ordered by
      value and then by original position, and nothing is lost. */
  lemma SortIsStable(s: seq<int>)
    ensures StablySorted(SortItems(Tagged(s)))
    ensures multiset(SortItems(Tagged(s))) == multiset(Tagged(s))
  {
    SortStable(Tagged(s));
    SortPermutes(Tagged(s));
  }

  // ------------------------------------------------ back to bare values

  lemma {:induction false} MergeValueCount(l: seq<Item>, r: seq<Item>, v: int)
    ensures multiset(Values(Merge(l, r)))[v] == multiset(Values(l))[v] + multiset(Values(r))[v]
  {
    if l == [] {
    } else if r == [] || l[0].value <= r[0].value {
      MergeValueCount(l[1..], r, v);
      MergeLeft(l, r);
      ConsCount(l[0].value, Values(Merge(l[1..], r)), v);
      ValueHead(l, v);
    } else {
      MergeValueCount(l, r[1..], v);
      MergeRight(l, r);
      ConsCount(r[0].value, Values(Merge(l, r[1..])), v);
      ValueHead(r, v);
    }
  }

  lemma ValueHead(s: seq<Item>, v: int)
    requires s != []
    ensures multiset(Values(s))[v] == multiset(Values(s[1..]))[v] + (if s[0].value == v then 1 else 0)
  {
    HeadCount(Values(s), v);
    assert Values(s)[1..] == Values(s[1..]);
  }

  lemma MergeValues(l: seq<Item>, r: seq<Item>)
    ensures multiset(Values(Merge(l, r))) == multiset(Values(l)) + multiset(Values(r))
  {
    forall v ensures multiset(Values(Merge(l, r)))[v] == multiset(Values(l))[v] + multiset(Values(r))[v] {
      MergeValueCount(l, r, v);
    }
  }

  lemma {:induction false} SortValues(s: seq<Item>)
    ensures multiset(Values(SortItems(s))) == multiset(Values(s))
    decreases |s|
  {
    if |s| > 1 {
      var m := |s| / 2;
      var l, r := s[..m], s[m..];
      SortValues(l);
      SortValues(r);
      MergeValues(SortItems(l), SortItems(r));
      SplitMultiset(Values(s), m);
      assert Values(l) == Values(s)[..m] && Values(r) == Values(s)[m..];
    }
  }

  /** Bare values come out sorted and permuted. */
  lemma ValuesSorted(s: seq<int>)
    ensures var r := Values(SortItems(Tagged(s)));
      Sorted(r) && multiset(r) == multiset(s)
  {
    SortStable(Tagged(s));
    SortValues(Tagged(s));
    assert Values(Tagged(s)) == s;
  }

  // ------------------------------------------------ cost

  function CeilLog2(n: nat): nat {
    if n <= 1 then 0 else 1 + CeilLog2((n + 1) / 2)
  }

  lemma {:induction false} CeilLog2Meaning(n: nat)
    requires n > 0
    ensures n <= Pow2(CeilLog2(n))
    ensures n > 1 ==> Pow2(CeilLog2(n) - 1) < n
  {
    if n > 1 {
      CeilLog2Meaning((n + 1) / 2);
      assert CeilLog2(2) == 1 && Pow2(1) == 2;
    }
  }

  lemma {:induction false} CeilLog2Monotone(m: nat, n: nat)
    requires m <= n
    ensures CeilLog2(m) <= CeilLog2(n)
    decreases n
  {
    if m > 1 {
      CeilLog2Monotone((m + 1) / 2, (n + 1) / 2);
    }
  }

  lemma SplitCost(n: nat, l: nat, r: nat)
    requires n > 1 && l == n / 2 && r == n - l
    ensures l * CeilLog2(l) + r * CeilLog2(r) + n <= n * CeilLog2(n)
  {
    var c := CeilLog2(r);
    assert r == (n + 1) / 2 && CeilLog2(n) == c + 1;
    CeilLog2Monotone(l, r);
    Weighted(l, r, CeilLog2(l), c);
  }

  lemma Weighted(l: nat, r: nat, a: nat, c: nat)
    requires a <= c
    ensures l * a + r * c + (l + r) <= (l + r) * (c + 1)
  {
    assert l * a <= l * c;
    assert (l + r) * (c + 1) == l * c + r * c + (l + r);
  }

  // ------------------------------------------------ the merge in place

  /** After `j` elements of the left half and `k` of the right, the rest of the merge is the
      merge of the rests. */
  ghost predicate Rest(l: seq<Item>, r: seq<Item>, j: nat, k: nat) {
    && j <= |l| && k <= |r|
    && |Merge(l, r)| == |l| + |r|
    && Merge(l, r)[j + k..] == Merge(l[j..], r[k..])
  }

  lemma {:induction false} MergeLength(l: seq<Item>, r: seq<Item>)
    ensures |Merge(l, r)| == |l| + |r|
  {
    if l == [] {
    } else if r == [] || l[0].value <= r[0].value {
      MergeLength(l[1..], r);
    } else {
      MergeLength(l, r[1..]);
    }
  }

  lemma RestBegins(l: seq<Item>, r: seq<Item>)
    ensures Rest(l, r, 0, 0)
  {
    MergeLength(l, r);
    assert l[0..] == l && r[0..] == r && Merge(l, r)[0..] == Merge(l, r);
  }

  lemma RestLeft(l: seq<Item>, r: seq<Item>, j: nat, k: nat)
    requires Rest(l, r, j, k) && j < |l| && (k == |r| || l[j].value <= r[k].value)
    ensures Merge(l, r)[j + k] == l[j] && Rest(l, r, j + 1, k)
  {
    assert l[j..][1..] == l[j + 1..];
    MergeLeft(l[j..], r[k..]);
    DropOne(Merge(l, r), j + k, l[j], Merge(l[j + 1..], r[k..]));
  }

  lemma RestRight(l: seq<Item>, r: seq<Item>, j: nat, k: nat)
    requires Rest(l, r, j, k) && k < |r| && (j == |l| || r[k].value < l[j].value)
    ensures Merge(l, r)[j + k] == r[k] && Rest(l, r, j, k + 1)
  {
    RightNext(l[j..], r[k..], r[k + 1..]);
    DropOne(Merge(l, r), j + k, r[k], Merge(l[j..], r[k + 1..]));
  }

  lemma RightNext(l: seq<Item>, r: seq<Item>, tail: seq<Item>)
    requires r != [] && tail == r[1..] && (l == [] || r[0].value < l[0].value)
    ensures Merge(l, r) == [r[0]] + Merge(l, tail)
  {
    if l != [] {
      MergeRight(l, r);
    }
  }

  lemma DropOne(s: seq<Item>, n: nat, x: Item, rest: seq<Item>)
    requires n <= |s| && s[n..] == [x] + rest
    ensures n < |s| && s[n] == x && s[n + 1..] == rest
  {
    assert s[n..][0] == x && s[n + 1..] == s[n..][1..];
  }

  lemma RestEnds(l: seq<Item>, r: seq<Item>, k: nat)
    requires Rest(l, r, |l|, k)
    ensures Merge(l, r)[|l| + k..] == r[k..]
  {
    assert l[|l|..] == [];
  }

  /** The cells from `at` on hold the values of `x`. */
  ghost predicate Holds(s: seq<int>, at: nat, x: seq<Item>) {
    at + |x| <= |s| && forall p, q | 0 <= p < |x| && q == at + p :: s[q] == x[p].value
  }

  /** The cells outside `[lo, hi)` are as in `start`. */
  ghost predicate Outside(start: seq<int>, now: seq<int>, lo: nat, hi: nat) {
    |now| == |start| && forall p | 0 <= p < |now| && !(lo <= p < hi) :: now[p] == start[p]
  }

  /** Where the merge stands after `j` left and `k` right elements: the buffer holds the left
      half and has at least one cell more; what is written is the beginning of the merge; the
      right half is unread from `k` on, and still there. */
  ghost predicate Running(start: seq<int>, now: seq<int>, buf: seq<int>, l: seq<Item>, r: seq<Item>, lo: nat, j: nat,
                          k: nat) {
    && Rest(l, r, j, k)
    && Holds(buf, 0, l) && |l| < |buf|
    && lo + |l| + |r| <= |now|
    && Outside(start, now, lo, lo + |l| + |r|)
    && Holds(now, lo, Merge(l, r)[..j + k])
    && Holds(now, lo + |l| + k, r[k..])
  }

  lemma RunningBegins(start: seq<int>, buf: seq<int>, l: seq<Item>, r: seq<Item>, lo: nat)
    requires Holds(start, lo + |l|, r) && Holds(buf, 0, l) && |l| < |buf|
    ensures Running(start, start, buf, l, r, lo, 0, 0)
  {
    RestBegins(l, r);
    assert r[0..] == r;
  }

  lemma HoldsOneMore(s: seq<int>, at: nat, x: seq<Item>, n: nat, v: int)
    requires n < |x| && Holds(s, at, x[..n]) && at + n < |s| && v == x[n].value
    ensures Holds(s[at + n := v], at, x[..n + 1])
  {
  }

  lemma HoldsBeyond(s: seq<int>, at: nat, x: seq<Item>, i: nat, v: int)
    requires Holds(s, at, x) && i < at && i < |s|
    ensures Holds(s[i := v], at, x)
  {
  }

  lemma HoldsTail(s: seq<int>, at: nat, x: seq<Item>, k: nat)
    requires k < |x| && Holds(s, at, x[k..])
    ensures Holds(s, at + 1, x[k + 1..])
  {
    assert x[k + 1..] == x[k..][1..];
  }

  lemma OutsideKept(start: seq<int>, now: seq<int>, lo: nat, hi: nat, i: nat, v: int)
    requires Outside(start, now, lo, hi) && lo <= i < hi <= |now|
    ensures Outside(start, now[i := v], lo, hi)
  {
  }

  /** The left element goes into a cell already read: left of the first unread right one. */
  lemma WriteLeft(start: seq<int>, now: seq<int>, buf: seq<int>, l: seq<Item>, r: seq<Item>, lo: nat, j: nat, k: nat)
    requires Running(start, now, buf, l, r, lo, j, k)
    requires j < |l| && (k == |r| || buf[j] <= now[lo + |l| + k])
    ensures Running(start, now[lo + j + k := buf[j]], buf, l, r, lo, j + 1, k)
  {
    assert k < |r| ==> now[lo + |l| + k] == r[k..][0].value;
    RestLeft(l, r, j, k);
    HoldsOneMore(now, lo, Merge(l, r), j + k, buf[j]);
    HoldsBeyond(now, lo + |l| + k, r[k..], lo + j + k, buf[j]);
    OutsideKept(start, now, lo, lo + |l| + |r|, lo + j + k, buf[j]);
  }

  /** The right element goes to its left, or onto itself once the left half is used up. */
  lemma WriteRight(start: seq<int>, now: seq<int>, buf: seq<int>, l: seq<Item>, r: seq<Item>, lo: nat, j: nat, k: nat)
    requires Running(start, now, buf, l, r, lo, j, k)
    requires k < |r| && now[lo + |l| + k] < buf[j]
    ensures Running(start, now[lo + j + k := now[lo + |l| + k]], buf, l, r, lo, j, k + 1)
  {
    var v := now[lo + |l| + k];
    assert v == r[k..][0].value == r[k].value;
    RestRight(l, r, j, k);
    HoldsOneMore(now, lo, Merge(l, r), j + k, v);
    HoldsTail(now, lo + |l| + k, r, k);
    HoldsBeyond(now, lo + |l| + (k + 1), r[k + 1..], lo + j + k, v);
    OutsideKept(start, now, lo, lo + |l| + |r|, lo + j + k, v);
  }

  lemma RunningEnds(start: seq<int>, now: seq<int>, buf: seq<int>, l: seq<Item>, r: seq<Item>, lo: nat, k: nat)
    requires Running(start, now, buf, l, r, lo, |l|, k)
    ensures Holds(now, lo, Merge(l, r)) && Outside(start, now, lo, lo + |l| + |r|)
    ensures k <= |r|
  {
    RestEnds(l, r, k);
    var out, n := Merge(l, r), |l| + k;
    forall p, q | 0 <= p < |out| && q == lo + p ensures now[q] == out[p].value {
      if p < n {
        assert out[..n][p] == out[p];
      } else {
        assert out[p] == out[n..][p - n] == r[k..][p - n];
      }
    }
  }

  /** The elements moved so far, in order, are the beginning of the merge. */
  ghost predicate Moved(l: seq<Item>, r: seq<Item>, j: nat, k: nat, moved: seq<Item>) {
    Rest(l, r, j, k) && moved == Merge(l, r)[..j + k]
  }

  lemma MovedLeft(l: seq<Item>, r: seq<Item>, j: nat, k: nat, moved: seq<Item>)
    requires Moved(l, r, j, k, moved) && j < |l| && (k == |r| || l[j].value <= r[k].value)
    ensures Moved(l, r, j + 1, k, moved + [l[j]])
  {
    RestLeft(l, r, j, k);
  }

  lemma MovedRight(l: seq<Item>, r: seq<Item>, j: nat, k: nat, moved: seq<Item>)
    requires Moved(l, r, j, k, moved) && k < |r| && (j == |l| || r[k].value < l[j].value)
    ensures Moved(l, r, j, k + 1, moved + [r[k]])
  {
    RestRight(l, r, j, k);
  }

  lemma MovedAll(l: seq<Item>, r: seq<Item>, k: nat, moved: seq<Item>)
    requires Moved(l, r, |l|, k, moved)
    ensures k <= |r| && moved + r[k..] == Merge(l, r)
  {
    RestEnds(l, r, k);
    assert Merge(l, r) == Merge(l, r)[..|l| + k] + Merge(l, r)[|l| + k..];
  }

  lemma RunningValues(start: seq<int>, now: seq<int>, buf: seq<int>, l: seq<Item>, r: seq<Item>, lo: nat, j: nat,
                      k: nat)
    requires Running(start, now, buf, l, r, lo, j, k)
    ensures j < |l| ==> buf[j] == l[j].value
    ensures k < |r| ==> now[lo + |l| + k] == r[k].value
  {
    assert k < |r| ==> r[k..][0] == r[k];
  }

  lemma StepLeft(start: seq<int>, now: seq<int>, buf: seq<int>, l: seq<Item>, r: seq<Item>, lo: nat, j: nat, k: nat,
                 moved: seq<Item>)
    requires Running(start, now, buf, l, r, lo, j, k) && Moved(l, r, j, k, moved)
    requires j < |l| && (k == |r| || buf[j] <= now[lo + |l| + k])
    ensures Running(start, now[lo + j + k := buf[j]], buf, l, r, lo, j + 1, k) && Moved(l, r, j + 1, k, moved + [l[j]])
  {
    RunningValues(start, now, buf, l, r, lo, j, k);
    MovedLeft(l, r, j, k, moved);
    WriteLeft(start, now, buf, l, r, lo, j, k);
  }

  lemma StepRight(start: seq<int>, now: seq<int>, buf: seq<int>, l: seq<Item>, r: seq<Item>, lo: nat, j: nat, k: nat,
                  moved: seq<Item>)
    requires Running(start, now, buf, l, r, lo, j, k) && Moved(l, r, j, k, moved)
    requires k < |r| && now[lo + |l| + k] < buf[j]
    ensures Running(start, now[lo + j + k := now[lo + |l| + k]], buf, l, r, lo, j, k + 1)
    ensures Moved(l, r, j, k + 1, moved + [r[k]])
  {
    RunningValues(start, now, buf, l, r, lo, j, k);
    MovedRight(l, r, j, k, moved);
    WriteRight(start, now, buf, l, r, lo, j, k);
  }

  method CopyLeft(a: array<Int32>, buf: array<Int32>, lo: nat, lLen: nat)
    requires lo + lLen <= a.Length && lLen < buf.Length && a != buf
    modifies buf
    ensures buf[..lLen] == a[lo..lo + lLen]
  {
    forall p | 0 <= p < lLen {
      buf[p] := a[lo + p];
    }
  }

  lemma CopyHolds(s: seq<int>, buf: seq<int>, lo: nat, l: seq<Item>)
    requires Holds(s, lo, l) && |l| < |buf| && buf[..|l|] == s[lo..lo + |l|]
    ensures Holds(buf, 0, l)
  {
    forall p | 0 <= p < |l| ensures buf[p] == l[p].value {
      assert buf[..|l|][p] == s[lo..lo + |l|][p] == s[lo + p];
    }
  }

  /** Merges `a[lo..mi]` and `a[mi..hi]` with only the left half copied out. The test of the
      right element may read the buffer one cell past the copied half; that cell exists, and
      what it holds does not matter: once the left half is used up, a right element can only
      be written onto itself. `moved` follows the elements: one entry for every write, naming
      the element copied, and then those that stayed in place. */
  method Merger(a: array<Int32>, buf: array<Int32>, lo: nat, mi: nat, hi: nat, ghost l: seq<Item>, ghost r: seq<Item>)
    returns (ghost writes: nat, ghost moved: seq<Item>)
    requires lo + |l| == mi && mi + |r| == hi <= a.Length && mi - lo < buf.Length && a != buf
    requires Holds(a[..], lo, l) && Holds(a[..], mi, r)
    modifies a, buf
    ensures Holds(a[..], lo, Merge(l, r)) && Outside(old(a[..]), a[..], lo, hi)
    ensures moved == Merge(l, r)
    ensures writes <= hi - lo
  {
    var lLen, rLen := mi - lo, hi - mi;
    ghost var start: seq<int> := a[..];
    CopyLeft(a, buf, lo, lLen);
    ghost var b: seq<int> := buf[..];
    CopyHolds(start, b, lo, l);
    RunningBegins(start, b, l, r, lo);
    moved := [];
    var i, j, k := 0, 0, 0;
    while j < lLen
      invariant i == j + k && buf[..] == b
      invariant Moved(l, r, j, k, moved)
      invariant Running(start, a[..], b, l, r, lo, j, k)
      decreases lLen - j + (rLen - k)
    {
      if rLen <= k || buf[j] <= a[mi + k] {
        ghost var now: seq<int> := a[..];
        StepLeft(start, now, b, l, r, lo, j, k, moved);
        a[lo + i] := buf[j];
        assert a[..] == now[lo + j + k := buf[j]];
        moved := moved + [l[j]];
        i, j := i + 1, j + 1;
      }
      if k < rLen && a[mi + k] < buf[j] {
        ghost var now: seq<int> := a[..];
        StepRight(start, now, b, l, r, lo, j, k, moved);
        a[lo + i] := a[mi + k];
        assert a[..] == now[lo + j + k := now[mi + k]];
        moved := moved + [r[k]];
        i, k := i + 1, k + 1;
      }
    }
    writes := i;
    RunningEnds(start, a[..], b, l, r, lo, k);
    MovedAll(l, r, k, moved);
    moved := moved + r[k..];
  }

  // ------------------------------------------------ the recursion

  /** `t` is `s` with the cells of `items` sorted. */
  ghost predicate SortsTo(s: seq<int>, t: seq<int>, lo: nat, items: seq<Item>) {
    Holds(t, lo, SortItems(items)) && Outside(s, t, lo, lo + |items|)
  }

  lemma HoldsSplit(s: seq<int>, at: nat, x: seq<Item>, m: nat)
    requires m <= |x| && Holds(s, at, x)
    ensures Holds(s, at, x[..m]) && Holds(s, at + m, x[m..])
  {
  }

  lemma HoldsOutside(s: seq<int>, t: seq<int>, lo: nat, hi: nat, at: nat, x: seq<Item>)
    requires Holds(s, at, x) && Outside(s, t, lo, hi) && (at + |x| <= lo || hi <= at)
    ensures Holds(t, at, x)
  {
  }

  lemma OutsideThrough(s: seq<int>, t: seq<int>, u: seq<int>, lo: nat, hi: nat, lo': nat, hi': nat)
    requires Outside(s, t, lo, hi) && Outside(t, u, lo', hi') && lo <= lo' && hi' <= hi
    ensures Outside(s, u, lo, hi)
  {
  }

  lemma SortLength(s: seq<Item>)
    ensures |SortItems(s)| == |s|
  {
    SortPermutes(s);
    SameLength(SortItems(s), s);
  }

  /** After the left recursion the right half is still as it was. */
  lemma LeftSorted(s0: seq<int>, s1: seq<int>, lo: nat, l: seq<Item>, r: seq<Item>)
    requires Holds(s0, lo, l) && Holds(s0, lo + |l|, r) && SortsTo(s0, s1, lo, l)
    ensures Holds(s1, lo + |l|, r)
  {
    HoldsOutside(s0, s1, lo, lo + |l|, lo + |l|, r);
  }

  /** After the right recursion both halves are sorted. */
  lemma BothSorted(s0: seq<int>, s1: seq<int>, s2: seq<int>, lo: nat, l: seq<Item>, r: seq<Item>)
    requires SortsTo(s0, s1, lo, l) && SortsTo(s1, s2, lo + |l|, r)
    ensures |SortItems(l)| == |l| && |SortItems(r)| == |r|
    ensures Holds(s2, lo, SortItems(l)) && Holds(s2, lo + |l|, SortItems(r))
    ensures Outside(s0, s2, lo, lo + |l| + |r|)
  {
    SortLength(l);
    SortLength(r);
    HoldsOutside(s1, s2, lo + |l|, lo + |l| + |r|, lo, SortItems(l));
    OutsideThrough(s0, s1, s2, lo, lo + |l| + |r|, lo + |l|, lo + |l| + |r|);
  }

  lemma MergedSorts(s0: seq<int>, s2: seq<int>, s3: seq<int>, lo: nat, items: seq<Item>, m: nat)
    requires |items| > 1 && m == |items| / 2
    requires Outside(s0, s2, lo, lo + |items|) && Outside(s2, s3, lo, lo + |items|)
    requires Holds(s3, lo, Merge(SortItems(items[..m]), SortItems(items[m..])))
    ensures SortsTo(s0, s3, lo, items)
  {
    OutsideThrough(s0, s2, s3, lo, lo + |items|, lo, lo + |items|);
  }

  /** Sorts `a[lo..hi]`, which holds `items`; `lo + hi` must not leave 32 bits. At most
      n * ceil(log2 n) writes on n elements, not counting the copies into the buffer. */
  method Recursion(a: array<Int32>, buf: array<Int32>, lo: nat, hi: nat, ghost items: seq<Item>)
    returns (ghost writes: nat, ghost moved: seq<Item>)
    requires lo + |items| == hi <= a.Length <= buf.Length && a != buf && 2 * a.Length <= WORD
    requires Holds(a[..], lo, items)
    modifies a, buf
    ensures SortsTo(old(a[..]), a[..], lo, items)
    ensures moved == SortItems(items)
    ensures writes <= (hi - lo) * CeilLog2(hi - lo)
    decreases hi - lo
  {
    writes, moved := 0, items;
    if hi - lo <= 1 {
      return;
    }
    assert lo + hi < WORD;
    var mi := (lo + hi) / 2;
    ghost var m := |items| / 2;
    assert mi == lo + m;
    ghost var l, r := items[..m], items[m..];
    ghost var s0: seq<int> := a[..];
    HoldsSplit(s0, lo, items, m);
    var w1, left := Recursion(a, buf, lo, mi, l);
    ghost var s1: seq<int> := a[..];
    LeftSorted(s0, s1, lo, l, r);
    var w2, right := Recursion(a, buf, mi, hi, r);
    ghost var s2: seq<int> := a[..];
    BothSorted(s0, s1, s2, lo, l, r);
    ghost var w3;
    w3, moved := Merger(a, buf, lo, mi, hi, left, right);
    MergedSorts(s0, s2, a[..], lo, items, m);
    CostAdds(hi - lo, mi - lo, hi - mi, w1, w2, w3);
    writes := w1 + w2 + w3;
  }

  lemma CostAdds(n: nat, l: nat, r: nat, w1: nat, w2: nat, w3: nat)
    requires n > 1 && l == n / 2 && r == n - l
    requires w1 <= l * CeilLog2(l) && w2 <= r * CeilLog2(r) && w3 <= n
    ensures w1 + w2 + w3 <= n * CeilLog2(n)
  {
    SplitCost(n, l, r);
  }

  lemma HoldsAll(s: seq<int>, t: seq<int>)
    requires SortsTo(s, t, 0, Tagged(s))
    ensures t == Values(SortItems(Tagged(s)))
  {
    SortLength(Tagged(s));
  }

  /** `t` is `s` sorted, and `moved` says which element of `s` each cell of `t` holds: in the
      strict order by value and then by original position. */
  ghost predicate SortedStably(s: seq<int>, t: seq<int>, moved: seq<Item>) {
    && Sorted(t) && multiset(t) == multiset(s)
    && Values(moved) == t && StablySorted(moved) && multiset(moved) == multiset(Tagged(s))
  }

  /** Sorts if the buffer could be allocated, and otherwise does nothing. `moved` follows
      the elements as the program moves them: equal elements keep their order. */
  method Sort(a: array<Int32>, gotBuffer: bool) returns (ghost writes: nat, ghost moved: seq<Item>)
    requires 2 * a.Length <= WORD
    modifies a
    ensures !gotBuffer ==> a[..] == old(a[..])
    ensures gotBuffer ==> SortedStably(old(a[..]), a[..], moved)
    ensures writes <= a.Length * CeilLog2(a.Length)
  {
    writes, moved := 0, [];
    ghost var start: seq<int> := a[..];
    EmptyIsSorted();
    if a.Length == 0 || !gotBuffer {
      return;
    }
    var buf := new Int32[a.Length](_ => 0);
    assert a[..] == start;
    writes, moved := Recursion(a, buf, 0, a.Length, Tagged(start));
    SortsStably(start, a[..], moved);
  }

  lemma SortsStably(s: seq<int>, t: seq<int>, moved: seq<Item>)
    requires SortsTo(s, t, 0, Tagged(s)) && moved == SortItems(Tagged(s))
    ensures SortedStably(s, t, moved)
  {
    HoldsAll(s, t);
    ValuesSorted(s);
    SortIsStable(s);
  }

  lemma EmptyIsSorted()
    ensures SortedStably([], [], [])
  {
  }
}
