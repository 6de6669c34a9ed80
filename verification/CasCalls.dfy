/** What was so at some moment of a call, and runs in which it never is. */
module CasCalls {
  import opened CasQueue
  import opened CasFifo
  import opened CasRuns

  // ---------------------------------------------------------------- the states inside a call

  predicate CalledBy<T>(m: Machine<T>, a: Action<T>, t: Tid) {
    Enabled(m, a) && !a.Step? && a.tid == t
  }

  /** From the `k`-th state of the run on, thread `t` makes no call: that state is inside its
      last one. */
  ghost predicate InsideCall<T>(x: Traced<T>, s: seq<Action<T>>, t: Tid, k: nat)
    requires x.m.mem.Allocated()
  {
    || k == |s|
    || (k < |s| && !CalledBy(RunTraced(x, s[..|s| - 1]).m, s[|s| - 1], t) && InsideCall(x, s[..|s| - 1], t, k))
  }

  /** The history was such at some moment of the last call of `t`. */
  ghost predicate HeldInside<T>(x: Traced<T>, s: seq<Action<T>>, t: Tid, such: History<T> -> bool)
    requires x.m.mem.Allocated()
  {
    exists k: nat | k <= |s| :: InsideCall(x, s, t, k) && such(RunTraced(x, s[..k]).h)
  }

  /** Before anything has happened, every thread counts as inside a call. */
  lemma InsideNothing<T>(x: Traced<T>, t: Tid, such: History<T> -> bool)
    requires x.m.mem.Allocated()
    ensures HeldInside(x, [], t, such) <==> such(x.h)
  {
    var s: seq<Action<T>> := [];
    assert s[..0] == [] && InsideCall(x, s, t, 0);
  }

  /** One action more: a call starts afresh, and anything else adds one state. */
  lemma InsideLast<T>(x: Traced<T>, s: seq<Action<T>>, t: Tid, such: History<T> -> bool)
    requires x.m.mem.Allocated() && s != []
    ensures var n := |s| - 1;
      HeldInside(x, s, t, such) <==>
        || such(RunTraced(x, s).h)
        || (!CalledBy(RunTraced(x, s[..n]).m, s[n], t) && HeldInside(x, s[..n], t, such))
  {
    var n := |s| - 1;
    assert s[..|s|] == s && InsideCall(x, s, t, |s|);
    if HeldInside(x, s, t, such) && !such(RunTraced(x, s).h) {
      var k: nat :| k <= |s| && InsideCall(x, s, t, k) && such(RunTraced(x, s[..k]).h);
      assert s[..n][..k] == s[..k];
    }
    if !CalledBy(RunTraced(x, s[..n]).m, s[n], t) && HeldInside(x, s[..n], t, such) {
      var k: nat :| k <= n && InsideCall(x, s[..n], t, k) && such(RunTraced(x, s[..n][..k]).h);
      assert s[..n][..k] == s[..k] && InsideCall(x, s, t, k);
    }
  }

  lemma {:induction false} SameTids<T>(x: Traced<T>, s: seq<Action<T>>)
    requires x.m.mem.Allocated()
    ensures RunTraced(x, s).m.threads.Keys == x.m.threads.Keys
  {
    if s != [] {
      SameTids(x, s[..|s| - 1]);
    }
  }

  // ---------------------------------------------------------------- never in a run

  ghost predicate Never<T>(x: Traced<T>, s: seq<Action<T>>, such: History<T> -> bool)
    requires x.m.mem.Allocated()
  {
    !such(RunTraced(x, s).h) && (s == [] || Never(x, s[..|s| - 1], such))
  }

  lemma {:induction false} NeverAt<T>(x: Traced<T>, s: seq<Action<T>>, such: History<T> -> bool, k: nat)
    requires x.m.mem.Allocated() && Never(x, s, such) && k <= |s|
    ensures !such(RunTraced(x, s[..k]).h)
  {
    if k == |s| {
      assert s[..k] == s;
    } else {
      NeverAt(x, s[..|s| - 1], such, k);
      assert s[..|s| - 1][..k] == s[..k];
    }
  }

  /** One such run after another. */
  lemma {:induction false} ThenNever<T>(x: Traced<T>, s1: seq<Action<T>>, y: Traced<T>, s2: seq<Action<T>>,
                                        z: Traced<T>, such: History<T> -> bool)
    requires x.m.mem.Allocated() && y == RunTraced(x, s1) && z == RunTraced(y, s2)
    requires Never(x, s1, such) && Never(y, s2, such)
    ensures z == RunTraced(x, s1 + s2) && Never(x, s1 + s2, such)
    decreases |s2|
  {
    RunConcat(x, s1, s2);
    if s2 == [] {
      assert s1 + s2 == s1;
    } else {
      var n := |s2| - 1;
      ThenNever(x, s1, y, s2[..n], RunTraced(y, s2[..n]), such);
      assert (s1 + s2)[..|s1 + s2| - 1] == s1 + s2[..n];
    }
  }

  /** From `x` to `y`, where `r` were taken and `w` published and nothing is in flight, with the
      history never such. */
  ghost predicate Moves<T>(x: Traced<T>, s: seq<Action<T>>, y: Traced<T>, r: nat, w: nat, such: History<T> -> bool) {
    x.m.mem.Allocated() && y == RunTraced(x, s) && At(y, r, w) && SameThreads(x, y) && Never(x, s, such)
  }

  lemma MovesThen<T>(x: Traced<T>, s1: seq<Action<T>>, y: Traced<T>, s2: seq<Action<T>>, z: Traced<T>,
                     r1: nat, w1: nat, r2: nat, w2: nat, such: History<T> -> bool)
    requires Moves(x, s1, y, r1, w1, such) && Moves(y, s2, z, r2, w2, such)
    ensures Moves(x, s1 + s2, z, r2, w2, such)
  {
    ThenNever(x, s1, y, s2, z, such);
  }

  /** If a call begins such a run, nothing of the kind is inside that call. */
  lemma NoneInside<T>(x: Traced<T>, before: seq<Action<T>>, during: seq<Action<T>>, s: seq<Action<T>>, t: Tid,
                      such: History<T> -> bool)
    requires x.m.mem.Allocated() && s == before + during && Never(RunTraced(x, before), during, such)
    requires during != [] && CalledBy(RunTraced(x, before).m, during[0], t)
    ensures !HeldInside(x, s, t, such)
  {
    forall k: nat | k <= |s| && InsideCall(x, s, t, k) ensures !such(RunTraced(x, s[..k]).h) {
      if k <= |before| {
        assert s[..|before|] == before && s[|before|] == during[0];
        BeforeCall(x, s, |before|, t, k);
      } else {
        DuringCall(x, before, during, s, such, k);
      }
    }
  }

  lemma {:induction false} BeforeCall<T>(x: Traced<T>, s: seq<Action<T>>, i: nat, t: Tid, k: nat)
    requires x.m.mem.Allocated() && k <= i < |s| && CalledBy(RunTraced(x, s[..i]).m, s[i], t)
    ensures !InsideCall(x, s, t, k)
  {
    var n := |s| - 1;
    if i < n {
      assert s[..n][..i] == s[..i];
      BeforeCall(x, s[..n], i, t, k);
    }
  }

  lemma DuringCall<T>(x: Traced<T>, before: seq<Action<T>>, during: seq<Action<T>>, s: seq<Action<T>>,
                      such: History<T> -> bool, k: nat)
    requires x.m.mem.Allocated() && s == before + during
    requires Never(RunTraced(x, before), during, such) && |before| <= k <= |s|
    ensures !such(RunTraced(x, s[..k]).h)
  {
    var j := k - |before|;
    assert s[..k] == before + during[..j];
    RunConcat(x, before, during[..j]);
    NeverAt(RunTraced(x, before), during, such, j);
  }
}
