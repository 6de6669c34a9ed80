/** When the answer "full" can be trusted: there was no room at some moment of its call, in every
    run, exactly when there is at most one producer, or no consumer, or the size is 2. */
module CasFullAnswers {
  import opened Bits
  import opened PowerOfTwo
  import opened CasQueue
  import opened CasFifo
  import opened CasTickets
  import opened CasRuns
  import opened CasCalls
  import opened CasProducers

  /** There is no room: `size - 1` elements, or claims that will become such, are there. */
  function NoRoom<T>(size: Word): History<T> -> bool {
    (h: History<T>) => |h.claimed| >= |h.taken| + size - 1
  }

  /** Thread `t` is about to return from an enqueue that found no room. */
  predicate AnsweredFull<T>(m: Machine<T>, t: Tid) {
    t in m.threads && m.threads[t].EnqReturn? && !m.threads[t].ok
  }

  /** In every run, each full answer was true at some moment of its call. */
  ghost predicate FullAnswersHold<T(!new)>(x: Traced<T>) {
    && x.m.mem.Allocated()
    && forall s, t | AbaFreeRun(x, s) && AnsweredFull(RunTraced(x, s).m, t) :: HeldInside(x, s, t, NoRoom(x.m.mem.size))
  }

  // ---------------------------------------------------------------- right answers

  /** What the proof needs of the threads or the size. */
  ghost predicate Calm<T>(x: Traced<T>, p: Tid) {
    x.m.enqueuers <= {p} || (x.m.dequeuers == {} && x.h.taken == []) || x.m.mem.size == 2
  }

  /** While a thread has not seen the queue without room, the ticket it will find is less than a
      round ahead of the one it loaded. */
  ghost predicate Awake<T>(x: Traced<T>, t: Tid, saw: bool) {
    t in x.m.threads ==>
      var l := x.m.threads[t];
      && (l.EnqLoadWrite? ==> saw || (t in x.h.loaded && |x.h.claimed| < x.h.loaded[t] + x.m.mem.size - 1))
      && (AnsweredFull(x.m, t) ==> saw)
  }

  lemma AwakeStep<T>(x: Traced<T>, a: Action<T>, p: Tid, t: Tid, saw: bool, saw': bool)
    requires Counted(x) && AbaFree(x, a) && Calm(x, p) && Awake(x, t, saw)
    requires saw' <==> NoRoom(x.m.mem.size)(ExecTraced(x, a).h) || (!CalledBy(x.m, a, t) && saw)
    ensures Awake(ExecTraced(x, a), t, saw')
  {
    if Enabled(x.m, a) && a.Step? && t in x.m.threads && x.m.threads[t].EnqLoadWrite? && !saw {
      if a.tid == t {
        OwnTest(x, t, saw);
      } else {
        OtherClaim(x, a, p, t);
      }
    }
  }

  /** The test itself is exact on tickets. */
  lemma OwnTest<T>(x: Traced<T>, t: Tid, saw: bool)
    requires Counted(x) && t in x.m.threads && x.m.threads[t].EnqLoadWrite? && Awake(x, t, saw) && !saw
    ensures !Advance(x.m.mem, x.m.threads[t], false).1.EnqReturn?
  {
    FullTest(x.m.mem, |x.h.claimed|, x.h.loaded[t]);
  }

  /** A claim of another thread that comes a round ahead of the loaded ticket leaves no room. */
  lemma OtherClaim<T>(x: Traced<T>, a: Action<T>, p: Tid, t: Tid)
    requires Counted(x) && Calm(x, p) && Enabled(x.m, a) && a.tid != t
    requires t in x.m.threads && x.m.threads[t].EnqLoadWrite?
    requires |x.h.claimed| < x.h.loaded[t] + x.m.mem.size - 1
    ensures var h := ExecTraced(x, a).h;
      |h.claimed| < x.h.loaded[t] + x.m.mem.size - 1 || NoRoom(x.m.mem.size)(h)
  {
  }

  lemma {:induction false} AwakeRun<T>(x: Traced<T>, s: seq<Action<T>>, p: Tid, t: Tid)
    requires Counted(x) && Calm(x, p) && AbaFreeRun(x, s)
    requires forall u | u in x.m.threads :: x.m.threads[u].Idle?
    ensures Counted(RunTraced(x, s)) && Calm(RunTraced(x, s), p) && RunTraced(x, s).m.mem.size == x.m.mem.size
    ensures Awake(RunTraced(x, s), t, HeldInside(x, s, t, NoRoom(x.m.mem.size)))
  {
    if s != [] {
      var n := |s| - 1;
      var y := RunTraced(x, s[..n]);
      AwakeRun(x, s[..n], p, t);
      CountedStep(y, s[n]);
      var noRoom := NoRoom(x.m.mem.size);
      InsideLast(x, s, t, noRoom);
      AwakeStep(y, s[n], p, t, HeldInside(x, s[..n], t, noRoom), HeldInside(x, s, t, noRoom));
    }
  }

  lemma FullAnswersRight<T(!new)>(size: Word, slots: seq<T>, enqueuers: set<Tid>, dequeuers: set<Tid>)
    requires GoodSize(size) && |slots| == size && (|enqueuers| <= 1 || dequeuers == {} || size == 2)
    ensures FullAnswersHold(Start(size, slots, enqueuers, dequeuers))
  {
    var x := Start(size, slots, enqueuers, dequeuers);
    var p := 0;
    if |enqueuers| <= 1 {
      p := Cover(enqueuers);
    }
    CountedBegin(size, slots, enqueuers, dequeuers);
    forall s, t | AbaFreeRun(x, s) && AnsweredFull(RunTraced(x, s).m, t) ensures HeldInside(x, s, t, NoRoom(size)) {
      AwakeRun(x, s, p, t);
    }
  }

  // ---------------------------------------------------------------- a wrong answer

  /** A run that claims too little to use up the room there was. */
  lemma {:induction false} ClaimsTooFew<T>(x: Traced<T>, s: seq<Action<T>>, size: Word)
    requires x.m.mem.Allocated() && |RunTraced(x, s).h.claimed| < |x.h.taken| + size - 1
    ensures Never(x, s, NoRoom(size)) && |x.h.taken| <= |RunTraced(x, s).h.taken|
  {
    if s != [] {
      var n := |s| - 1;
      TakenGrows(RunTraced(x, s[..n]), s[n]);
      ClaimsTooFew(x, s[..n], size);
    }
  }

  /** In and out again, `n` times, with never more than one element there. */
  lemma {:induction false} Rounds<T>(x: Traced<T>, r: nat, q: Tid, c: Tid, v: T, n: nat)
    returns (s: seq<Action<T>>, y: Traced<T>)
    requires At(x, r, r) && x.m.mem.size > 2 && Enabled(x.m, CallEnqueue(q, v)) && Enabled(x.m, CallDequeue(c, v))
    ensures Moves(x, s, y, r + n, r + n, NoRoom(x.m.mem.size))
    decreases n
  {
    if n == 0 {
      s, y := [], x;
    } else {
      var s1, x1 := RoundOnce(x, r, q, c, v);
      var s2;
      s2, y := Rounds(x1, r + 1, q, c, v, n - 1);
      MovesThen(x, s1, x1, s2, y, r + 1, r + 1, r + n, r + n, NoRoom(x.m.mem.size));
      s := s1 + s2;
    }
  }

  lemma RoundOnce<T>(x: Traced<T>, r: nat, q: Tid, c: Tid, v: T) returns (s: seq<Action<T>>, y: Traced<T>)
    requires At(x, r, r) && x.m.mem.size > 2 && Enabled(x.m, CallEnqueue(q, v)) && Enabled(x.m, CallDequeue(c, v))
    ensures Moves(x, s, y, r + 1, r + 1, NoRoom(x.m.mem.size))
  {
    var s1, x1 := Put(x, r, r, q, v);
    var s2;
    s2, y := Get(x1, r, r + 1, c, v);
    Then(x, s1, x1, s2, y);
    s := s1 + s2;
    ClaimsTooFew(x, s, x.m.mem.size);
  }

  /** The test of a producer that has loaded read index 0 finds the last ticket of the round. */
  lemma FindNoRoom<T>(x: Traced<T>, p: Tid, v: T) returns (s: seq<Action<T>>, y: Traced<T>)
    requires x.m.mem.size > 2 && At(x, x.m.mem.size - 1, x.m.mem.size - 1)
    requires p in x.m.threads && x.m.threads[p] == EnqLoadWrite(v, 0)
    ensures y == RunTraced(x, s) && y.h.taken == x.h.taken && AnsweredFull(y.m, p) && Never(x, s, NoRoom(x.m.mem.size))
  {
    var from := Look(x, EnqLoadWrite(v, 0));
    RefuseAlone(from, p);
    s, y := StepsLead(x, p, from, 1, Ahead(from, p, 1));
    ClaimsTooFew(x, s, x.m.mem.size);
  }

  lemma RefuseAlone<T>(from: View<T>, p: Tid)
    requires from.mem.Allocated() && GoodSize(from.mem.size) && from.l.EnqLoadWrite? && from.l.read == 0
    requires from.mem.writeIdx == from.mem.size - 1
    ensures Ahead(from, p, 1) == from.(l := EnqReturn(false))
  {
    var size := from.mem.size;
    SlotOfTicket(from.mem, size);
    SlotOfTicket(from.mem, 0);
    ModUnique(size, size, 1, 0);
    ModUnique(0, size, 0, 0);
    AheadSnoc(from, p, 0);
    assert Ahead(from, p, 0) == from;
  }

  /** Producer `p` has loaded read index 0; the others move the queue on to the end of the round,
      and `p` answers that there is no room, though no more than one element was ever there. */
  lemma TwoProducersRefuse<T>(size: Word, slots: seq<T>, enqueuers: set<Tid>, dequeuers: set<Tid>, p: Tid, q: Tid,
                              c: Tid, v: T)
    returns (s: seq<Action<T>>)
    requires GoodSize(size) && |slots| == size > 2
    requires p in enqueuers && q in enqueuers && p != q && c in dequeuers && c != p
    ensures var x := Start(size, slots, enqueuers, dequeuers);
      AbaFreeRun(x, s) && AnsweredFull(RunTraced(x, s).m, p) && !HeldInside(x, s, p, NoRoom(size))
  {
    var x := Start(size, slots, enqueuers, dequeuers);
    var y;
    s, y := Refused(x, p, q, c, v);
    NoneInside(x, [], s, s, p, NoRoom(size));
    FewTakesAbaFree(x, s);
  }

  lemma Refused<T>(x: Traced<T>, p: Tid, q: Tid, c: Tid, v: T) returns (s: seq<Action<T>>, y: Traced<T>)
    requires At(x, 0, 0) && x.m.mem.size > 2 && p != q && p != c
    requires Enabled(x.m, CallEnqueue(p, v)) && Enabled(x.m, CallEnqueue(q, v)) && Enabled(x.m, CallDequeue(c, v))
    ensures y == RunTraced(x, s) && |y.h.taken| == x.m.mem.size - 1 && AnsweredFull(y.m, p)
    ensures s != [] && s[0] == CallEnqueue(p, v) && Never(x, s, NoRoom(x.m.mem.size))
  {
    var s1, x1 := LoadOnly(x, p, v);
    ClaimsTooFew(x, s1, x.m.mem.size);
    var s2;
    s2, y := RefusedLate(x1, p, q, c, v);
    ThenNever(x, s1, x1, s2, y, NoRoom(x.m.mem.size));
    s := s1 + s2;
  }

  lemma RefusedLate<T>(x: Traced<T>, p: Tid, q: Tid, c: Tid, v: T) returns (s: seq<Action<T>>, y: Traced<T>)
    requires At(x, 0, 0) && x.m.mem.size > 2 && p in x.m.threads && x.m.threads[p] == EnqLoadWrite(v, 0)
    requires Enabled(x.m, CallEnqueue(q, v)) && Enabled(x.m, CallDequeue(c, v))
    ensures y == RunTraced(x, s) && |y.h.taken| == x.m.mem.size - 1 && AnsweredFull(y.m, p)
    ensures Never(x, s, NoRoom(x.m.mem.size))
  {
    var s1, x1 := Rounds(x, 0, q, c, v, x.m.mem.size - 1);
    var s2;
    s2, y := FindNoRoom(x1, p, v);
    ThenNever(x, s1, x1, s2, y, NoRoom(x.m.mem.size));
    s := s1 + s2;
  }

  /** Any size, any producers, any consumers. */
  lemma FullAnswersExactly<T(!new)>(size: Word, slots: seq<T>, enqueuers: set<Tid>, dequeuers: set<Tid>)
    requires GoodSize(size) && |slots| == size
    ensures FullAnswersHold(Start(size, slots, enqueuers, dequeuers))
       <==> |enqueuers| <= 1 || dequeuers == {} || size == 2
  {
    if |enqueuers| <= 1 || dequeuers == {} || size == 2 {
      FullAnswersRight(size, slots, enqueuers, dequeuers);
    } else {
      var c: Tid :| c in dequeuers;
      var p := AnotherIn(enqueuers, c);
      var q := AnotherIn(enqueuers, p);
      var s := TwoProducersRefuse(size, slots, enqueuers, dequeuers, p, q, c, slots[0]);
    }
  }
}
