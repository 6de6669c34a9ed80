/** When the answer "empty" can be trusted: it was true at some moment of its call, in every run,
    exactly when nobody enqueues, or nobody dequeues, or there is one producer and besides at
    most one consumer or the size is 2. Two producers make a full queue look empty at every size,
    and two consumers can miss elements at every size but 2. */
module CasEmptyAnswers {
  import opened Bits
  import opened PowerOfTwo
  import opened CasQueue
  import opened CasFifo
  import opened CasLinearizable
  import opened CasRuns
  import opened CasCalls
  import opened CasProducers

  // ---------------------------------------------------------------- an answer and its call

  /** Thread `t` is about to return from a dequeue that found nothing. */
  predicate AnsweredEmpty<T>(m: Machine<T>, t: Tid) {
    t in m.threads && m.threads[t].DeqReturn? && !m.threads[t].ok
  }

  /** In every run, each empty answer was true at some moment of its call. */
  ghost predicate EmptyAnswersHold<T(!new)>(x: Traced<T>) {
    && x.m.mem.Allocated()
    && forall s, t | AbaFreeRun(x, s) && AnsweredEmpty(RunTraced(x, s).m, t) :: HeldInside(x, s, t, Drained)
  }

  // ---------------------------------------------------------------- right answers

  /** The mark of a thread says whether the queue was empty inside its call. */
  lemma {:induction false} MarkMeans<T>(x: Traced<T>, s: seq<Action<T>>, t: Tid)
    requires x.m.mem.Allocated() && t in x.m.threads && Drained(x.h)
    ensures t in RunWatched(Watch(x), s).since
    ensures RunWatched(Watch(x), s).since[t].sawEmpty <==> HeldInside(x, s, t, Drained)
  {
    if s == [] {
      InsideNothing(x, t, Drained);
    } else {
      var n := |s| - 1;
      MarkMeans(x, s[..n], t);
      InsideLast(x, s, t, Drained);
    }
  }

  lemma AnswersRight<T>(size: Word, slots: seq<T>, p: Tid, enqueuers: set<Tid>, dequeuers: set<Tid>, c: Tid,
                        s: seq<Action<T>>, t: Tid)
    requires GoodSize(size) && |slots| == size && enqueuers <= {p} && (size == 2 || dequeuers <= {c})
    requires var x := Start(size, slots, enqueuers, dequeuers);
      AbaFreeRun(x, s) && AnsweredEmpty(RunTraced(x, s).m, t)
    ensures HeldInside(Start(size, slots, enqueuers, dequeuers), s, t, Drained)
  {
    var x := Start(size, slots, enqueuers, dequeuers);
    WatchBegins(size, slots, p, enqueuers, dequeuers, WithinCall, c);
    ReadyRun(Watch(x), s, p, WithinCall, c);
    SameTids(x, s);
    MarkMeans(x, s, t);
  }

  lemma {:induction false} NothingClaimed<T>(x: Traced<T>, s: seq<Action<T>>)
    requires x.m.mem.Allocated() && x.m.enqueuers == {} && x.h.claimed == []
    requires forall t | t in x.m.threads :: !Enqueuing(x.m.threads[t])
    ensures var y := RunTraced(x, s);
      && y.m.enqueuers == {} && y.h.claimed == []
      && forall t | t in y.m.threads :: !Enqueuing(y.m.threads[t])
  {
    if s != [] {
      NothingClaimed(x, s[..|s| - 1]);
    }
  }

  /** Where nobody enqueues, the queue is empty all the time. */
  lemma AlwaysDrained<T>(size: Word, slots: seq<T>, dequeuers: set<Tid>, s: seq<Action<T>>, t: Tid)
    requires GoodSize(size) && |slots| == size && AbaFreeRun(Start(size, slots, {}, dequeuers), s)
    ensures HeldInside(Start(size, slots, {}, dequeuers), s, t, Drained)
  {
    var x := Start(size, slots, {}, dequeuers);
    NothingClaimed(x, s);
    FifoRun(size, slots, 0, {}, dequeuers, s);
    assert s[..|s|] == s && InsideCall(x, s, t, |s|);
  }

  // ---------------------------------------------------------------- never empty

  /** A run that takes less than what was published before it. */
  lemma {:induction false} TakesTooFew<T>(x: Traced<T>, s: seq<Action<T>>)
    requires x.m.mem.Allocated() && |RunTraced(x, s).h.taken| < x.h.published
    ensures Never(x, s, Drained) && x.h.published <= RunTraced(x, s).h.published
  {
    if s != [] {
      var n := |s| - 1;
      TakenGrows(RunTraced(x, s[..n]), s[n]);
      TakesTooFew(x, s[..n]);
    }
  }

  // ---------------------------------------------------------------- a wrong answer

  /** A consumer loads the read index and gets no further. */
  lemma LookOnly<T>(x: Traced<T>, c: Tid, v: T) returns (s: seq<Action<T>>, y: Traced<T>)
    requires At(x, 0, 1) && Enabled(x.m, CallDequeue(c, v))
    ensures s == Calling(CallDequeue(c, v), 1) && y == RunTraced(x, s) && At(y, 0, 1) && Never(x, s, Drained)
    ensures y.m == x.m.(threads := x.m.threads[c := DeqLoadLast(v, 0)])
  {
    s := Calling(CallDequeue(c, v), 1);
    CallRun(x, CallDequeue(c, v), 1);
    var from := Look(x, DeqLoadRead(v));
    AheadSnoc(from, c, 0);
    assert Ahead(from, c, 0) == from;
    y := With(x, c, Ahead(from, c, 1));
    TakesTooFew(x, s);
  }

  /** One element more, and then one fewer, `n` times. */
  lemma {:induction false} Shift<T>(x: Traced<T>, r: nat, p: Tid, d: Tid, v: T, n: nat)
    returns (s: seq<Action<T>>, y: Traced<T>)
    requires At(x, r, r + 1) && x.m.mem.size > 2 && Enabled(x.m, CallEnqueue(p, v)) && Enabled(x.m, CallDequeue(d, v))
    ensures Moves(x, s, y, r + n, r + n + 1, Drained)
    decreases n
  {
    if n == 0 {
      s, y := [], x;
    } else {
      var s1, x1 := ShiftOnce(x, r, p, d, v);
      var s2;
      s2, y := Shift(x1, r + 1, p, d, v, n - 1);
      MovesThen(x, s1, x1, s2, y, r + 1, r + 2, r + n, r + n + 1, Drained);
      s := s1 + s2;
    }
  }

  lemma ShiftOnce<T>(x: Traced<T>, r: nat, p: Tid, d: Tid, v: T) returns (s: seq<Action<T>>, y: Traced<T>)
    requires At(x, r, r + 1) && x.m.mem.size > 2 && Enabled(x.m, CallEnqueue(p, v)) && Enabled(x.m, CallDequeue(d, v))
    ensures Moves(x, s, y, r + 1, r + 2, Drained)
  {
    var s1, x1 := Put(x, r, r + 1, p, v);
    TakesTooFew(x, s1);
    var s2;
    s2, y := Get(x1, r, r + 2, d, v);
    TakesTooFew(x1, s2);
    MovesThen(x, s1, x1, s2, y, r, r + 2, r + 1, r + 2, Drained);
    s := s1 + s2;
  }

  /** The consumer's test finds the write index a whole round ahead of what it loaded. */
  lemma AnswerWrongly<T>(x: Traced<T>, r: nat, c: Tid, v: T) returns (s: seq<Action<T>>, y: Traced<T>)
    requires At(x, r, x.m.mem.size) && r < x.m.mem.size && c in x.m.threads && x.m.threads[c] == DeqLoadLast(v, 0)
    ensures s == [Step(c, false)] && y == RunTraced(x, s) && Never(x, s, Drained)
    ensures y == Traced(x.m.(threads := x.m.threads[c := DeqReturn(v, false)]), x.h)
  {
    SlotOfTicket(x.m.mem, x.m.mem.size);
    SlotOfTicket(x.m.mem, 0);
    ModUnique(x.m.mem.size, x.m.mem.size, 1, 0);
    ModUnique(0, x.m.mem.size, 0, 0);
    s := [Step(c, false)];
    RunOne(x, Step(c, false));
    y := RunTraced(x, s);
    TakesTooFew(x, s);
  }

  /** While consumer `c` holds read index 0, the others move the queue on until `size` elements
      have been published, without ever letting it run empty. Only `size - 1` of them were
      published after the load. */
  lemma MissesARound<T>(x: Traced<T>, p: Tid, c: Tid, d: Tid, v: T) returns (s: seq<Action<T>>, y: Traced<T>)
    requires At(x, 0, 1) && x.m.mem.size > 2 && c != p && c != d
    requires Enabled(x.m, CallEnqueue(p, v)) && Enabled(x.m, CallDequeue(c, v)) && Enabled(x.m, CallDequeue(d, v))
    ensures y == RunTraced(x, s) && Never(x, s, Drained) && AnsweredEmpty(y.m, c)
    ensures |y.h.taken| == x.m.mem.size - 2 && y.h.published == x.m.mem.size
    ensures s != [] && s[0] == CallDequeue(c, v)
  {
    var size := x.m.mem.size;
    var s1, x1 := LookOnly(x, c, v);
    var s2, x2 := Shift(x1, 0, p, d, v, size - 2);
    ThenNever(x, s1, x1, s2, x2, Drained);
    var s3;
    s3, y := MissNow(x2, p, c, v);
    ThenNever(x, s1 + s2, x2, s3, y, Drained);
    s := s1 + s2 + s3;
  }

  /** One enqueue more, and then the test. */
  lemma MissNow<T>(x: Traced<T>, p: Tid, c: Tid, v: T) returns (s: seq<Action<T>>, y: Traced<T>)
    requires x.m.mem.size > 2 && At(x, x.m.mem.size - 2, x.m.mem.size - 1) && Enabled(x.m, CallEnqueue(p, v))
    requires c != p && c in x.m.threads && x.m.threads[c] == DeqLoadLast(v, 0)
    ensures y == RunTraced(x, s) && Never(x, s, Drained) && AnsweredEmpty(y.m, c)
    ensures |y.h.taken| == x.m.mem.size - 2 && y.h.published == x.m.mem.size
  {
    var size := x.m.mem.size;
    var s1, x1 := Put(x, size - 2, size - 1, p, v);
    TakesTooFew(x, s1);
    var s2;
    s2, y := AnswerWrongly(x1, size - 2, c, v);
    ThenNever(x, s1, x1, s2, y, Drained);
    s := s1 + s2;
  }

  lemma TwoConsumersMiss<T>(size: Word, slots: seq<T>, enqueuers: set<Tid>, dequeuers: set<Tid>, p: Tid, c: Tid,
                            d: Tid, v: T)
    returns (s: seq<Action<T>>)
    requires GoodSize(size) && |slots| == size > 2
    requires p in enqueuers && c in dequeuers && d in dequeuers && c != d && c != p
    ensures var x := Start(size, slots, enqueuers, dequeuers);
      AbaFreeRun(x, s) && AnsweredEmpty(RunTraced(x, s).m, c) && !HeldInside(x, s, c, Drained)
  {
    var x := Start(size, slots, enqueuers, dequeuers);
    var s1, x1 := Put(x, 0, 0, p, v);
    var s2, x2 := MissesARound(x1, p, c, d, v);
    RunConcat(x, s1, s2);
    s := s1 + s2;
    NoneInside(x, s1, s2, s, c, Drained);
    FewTakesAbaFree(x, s);
  }

  /** On an overfilled queue, `size` elements look like none. */
  lemma FullLooksEmpty<T>(x: Traced<T>, c: Tid, v: T) returns (s: seq<Action<T>>, y: Traced<T>)
    requires At(x, 1, x.m.mem.size + 1) && Enabled(x.m, CallDequeue(c, v))
    ensures s == Calling(CallDequeue(c, v), 2) && y == RunTraced(x, s) && y.h.taken == x.h.taken
    ensures Never(x, s, Drained) && AnsweredEmpty(y.m, c)
  {
    var size := x.m.mem.size;
    SlotOfTicket(x.m.mem, size + 1);
    SlotOfTicket(x.m.mem, 1);
    OneRound(size, size + 1, 1);
    s := Calling(CallDequeue(c, v), 2);
    CallRun(x, CallDequeue(c, v), 2);
    EmptyAlone(Look(x, DeqLoadRead(v)), c);
    y := RunTraced(x, s);
    TakesTooFew(x, s);
  }

  lemma TwoProducersMiss<T>(size: Word, slots: seq<T>, enqueuers: set<Tid>, dequeuers: set<Tid>, p: Tid, q: Tid,
                            c: Tid, v: T)
    returns (s: seq<Action<T>>)
    requires GoodSize(size) && |slots| == size
    requires p in enqueuers && q in enqueuers && p != q && c in dequeuers && c != p
    ensures var x := Start(size, slots, enqueuers, dequeuers);
      AbaFreeRun(x, s) && AnsweredEmpty(RunTraced(x, s).m, c) && !HeldInside(x, s, c, Drained)
  {
    var x := Start(size, slots, enqueuers, dequeuers);
    var s1, x1 := Stall(x, p, q, c, v, size - 1);
    var s2, x2 := Overfill(x1, p, v);
    Then(x, s1, x1, s2, x2);
    var s3, x3 := FullLooksEmpty(x2, c, v);
    RunConcat(x, s1 + s2, s3);
    s := s1 + s2 + s3;
    NoneInside(x, s1 + s2, s3, s, c, Drained);
    FewTakesAbaFree(x, s);
  }

  // ---------------------------------------------------------------- exactly when

  lemma EmptyAnswersRight<T(!new)>(size: Word, slots: seq<T>, enqueuers: set<Tid>, dequeuers: set<Tid>)
    requires GoodSize(size) && |slots| == size
    requires enqueuers == {} || dequeuers == {} || (|enqueuers| == 1 && (|dequeuers| <= 1 || size == 2))
    ensures EmptyAnswersHold(Start(size, slots, enqueuers, dequeuers))
  {
    var x := Start(size, slots, enqueuers, dequeuers);
    var p, c := 0, 0;
    if |enqueuers| <= 1 {
      p := Cover(enqueuers);
    }
    if |dequeuers| <= 1 {
      c := Cover(dequeuers);
    }
    forall s, t | AbaFreeRun(x, s) && AnsweredEmpty(RunTraced(x, s).m, t) ensures HeldInside(x, s, t, Drained) {
      if enqueuers == {} {
        AlwaysDrained(size, slots, dequeuers, s, t);
      } else if dequeuers == {} {
        NothingTaken(x, s);
      } else {
        AnswersRight(size, slots, p, enqueuers, dequeuers, c, s, t);
      }
    }
  }

  lemma EmptyAnswersWrong<T(!new)>(size: Word, slots: seq<T>, enqueuers: set<Tid>, dequeuers: set<Tid>)
    requires GoodSize(size) && |slots| == size && enqueuers != {} && dequeuers != {}
    requires |enqueuers| > 1 || (|dequeuers| > 1 && size != 2)
    ensures !EmptyAnswersHold(Start(size, slots, enqueuers, dequeuers))
  {
    if |enqueuers| > 1 {
      var c: Tid :| c in dequeuers;
      var p := AnotherIn(enqueuers, c);
      var q := AnotherIn(enqueuers, p);
      var s := TwoProducersMiss(size, slots, enqueuers, dequeuers, p, q, c, slots[0]);
    } else {
      var p: Tid :| p in enqueuers;
      var c := AnotherIn(dequeuers, p);
      var d := AnotherIn(dequeuers, c);
      var s := TwoConsumersMiss(size, slots, enqueuers, dequeuers, p, c, d, slots[0]);
    }
  }

  /** Any size, any producers, any consumers. */
  lemma EmptyAnswersExactly<T(!new)>(size: Word, slots: seq<T>, enqueuers: set<Tid>, dequeuers: set<Tid>)
    requires GoodSize(size) && |slots| == size
    ensures EmptyAnswersHold(Start(size, slots, enqueuers, dequeuers))
       <==> enqueuers == {} || dequeuers == {} || (|enqueuers| == 1 && (|dequeuers| <= 1 || size == 2))
  {
    if enqueuers == {} || dequeuers == {} || (|enqueuers| == 1 && (|dequeuers| <= 1 || size == 2)) {
      EmptyAnswersRight(size, slots, enqueuers, dequeuers);
    } else {
      EmptyAnswersWrong(size, slots, enqueuers, dequeuers);
    }
  }
}
