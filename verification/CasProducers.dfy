/** How many producers the queue bears: with one, every run is first in, first out; with two
    and a consumer, at every size, some run breaks the bound and the order. */
module CasProducers {
  import opened Bits
  import opened PowerOfTwo
  import opened CasQueue
  import opened CasFifo
  import opened CasTickets
  import opened CasRuns

  // ---------------------------------------------------------------- a stale read index

  /** One producer `p` calls enqueue and gets no further than the load of the read index. */
  lemma LoadOnly<T>(x: Traced<T>, p: Tid, v: T) returns (s: seq<Action<T>>, y: Traced<T>)
    requires At(x, 0, 0) && Enabled(x.m, CallEnqueue(p, v))
    ensures s == Calling(CallEnqueue(p, v), 1) && y == RunTraced(x, s)
    ensures At(y, 0, 0) && y.h.claimed == x.h.claimed
    ensures y.m == x.m.(threads := x.m.threads[p := EnqLoadWrite(v, 0)])
  {
    s := Calling(CallEnqueue(p, v), 1);
    CallRun(x, CallEnqueue(p, v), 1);
    AheadSnoc(Look(x, EnqLoadRead(v)), p, 0);
    assert Ahead(Look(x, EnqLoadRead(v)), p, 0) == Look(x, EnqLoadRead(v));
    y := RunTraced(x, s);
  }

  /** Meanwhile `q` enqueues, `c` dequeues, and `q` enqueues `n` times more. */
  lemma MoveOn<T>(x: Traced<T>, q: Tid, c: Tid, v: T, n: nat) returns (s: seq<Action<T>>, y: Traced<T>)
    requires At(x, 0, 0) && n < x.m.mem.size
    requires Enabled(x.m, CallEnqueue(q, v)) && Enabled(x.m, CallDequeue(c, v))
    ensures y == RunTraced(x, s) && At(y, 1, 1 + n) && SameThreads(x, y)
    ensures y.h.claimed == seq(1 + n, _ => v)
    ensures forall i | 1 + n <= i < x.m.mem.size :: y.m.mem.queue[i] == x.m.mem.queue[i]
  {
    var s1, x1 := Put(x, 0, 0, q, v);
    var s2, x2 := Get(x1, 0, 1, c, v);
    Then(x, s1, x1, s2, x2);
    var s3;
    s3, y := Fill(x2, 1, 1, q, v, n);
    Then(x, s1 + s2, x2, s3, y);
    s := s1 + s2 + s3;
    assert x.h.claimed == [];
    assert [v] + seq(n, _ => v) == seq(1 + n, _ => v);
  }

  /** The producer `p` now holds a stale read index. */
  lemma Stall<T>(x: Traced<T>, p: Tid, q: Tid, c: Tid, v: T, n: nat) returns (s: seq<Action<T>>, y: Traced<T>)
    requires At(x, 0, 0) && n < x.m.mem.size && p != q && p != c
    requires Enabled(x.m, CallEnqueue(p, v)) && Enabled(x.m, CallEnqueue(q, v)) && Enabled(x.m, CallDequeue(c, v))
    ensures y == RunTraced(x, s) && At(y, 1, 1 + n) && y.h.claimed == seq(1 + n, _ => v)
    ensures y.m == x.m.(mem := y.m.mem, threads := x.m.threads[p := EnqLoadWrite(v, 0)]) && y.m.mem.size == x.m.mem.size
    ensures forall i | 1 + n <= i < x.m.mem.size :: y.m.mem.queue[i] == x.m.mem.queue[i]
  {
    var s1, x1 := LoadOnly(x, p, v);
    var s2;
    s2, y := MoveOn(x1, q, c, v, n);
    Then(x, s1, x1, s2, y);
    s := s1 + s2;
  }

  // ---------------------------------------------------------------- the bound and the order

  /** A full test against read index 0 finds room once a whole round has been written. */
  lemma StaleRoom<T>(mem: Memory<T>)
    requires mem.Allocated() && GoodSize(mem.size)
    ensures var size := mem.size;
      && Increment(size) == size + 1 && Increment(size - 1) == size
      && mem.Slot(Increment(size)) != mem.Slot(0) && mem.Slot(size) == 0
  {
    var size := mem.size;
    SlotOfTicket(mem, size + 1);
    SlotOfTicket(mem, size);
    SlotOfTicket(mem, 0);
    ModUnique(size + 1, size, 1, 1);
    ModUnique(size, size, 1, 0);
    ModUnique(0, size, 0, 0);
  }

  /** On a full queue the stale index lets `p` through: `size` elements are outstanding. */
  lemma Overfill<T>(x: Traced<T>, p: Tid, v: T) returns (s: seq<Action<T>>, y: Traced<T>)
    requires At(x, 1, x.m.mem.size) && p in x.m.threads && x.m.threads[p] == EnqLoadWrite(v, 0)
    ensures y == RunTraced(x, s) && At(y, 1, x.m.mem.size + 1) && y.m.mem.size == x.m.mem.size
    ensures y.m == x.m.(mem := y.m.mem, threads := x.m.threads[p := Idle])
    ensures y.h.claimed == x.h.claimed + [v]
  {
    StaleRoom(x.m.mem);
    s := Steps(p, 6);
    AloneRun(x, p, 6);
    ClaimAlone(Look(x, EnqLoadWrite(v, 0)), p);
    y := RunTraced(x, s);
  }

  /** The next enqueue overwrites the oldest element, and the next dequeue hands it out first. */
  lemma Overtake<T>(x: Traced<T>, q: Tid, c: Tid, b: T) returns (s: seq<Action<T>>, y: Traced<T>)
    requires At(x, 1, x.m.mem.size + 1) && Enabled(x.m, CallEnqueue(q, b)) && Enabled(x.m, CallDequeue(c, b))
    ensures y == RunTraced(x, s) && At(y, 2, x.m.mem.size + 2)
    ensures y.h.claimed == x.h.claimed + [b] && y.h.taken == x.h.taken + [b]
  {
    var size := x.m.mem.size;
    OneRound(size, size + 1, 1);
    var s1, x1 := Put(x, 1, size + 1, q, b);
    var s2;
    s2, y := Get(x1, 1, size + 2, c, b);
    Then(x, s1, x1, s2, y);
    s := s1 + s2;
  }

  /** So two producers and a consumer can break the bound and the order at every size. */
  lemma TwoProducersOverfill<T>(size: Word, slots: seq<T>, enqueuers: set<Tid>, dequeuers: set<Tid>,
                                p: Tid, q: Tid, c: Tid, v: T, b: T)
    returns (s: seq<Action<T>>)
    requires GoodSize(size) && |slots| == size
    requires p in enqueuers && q in enqueuers && p != q && c in dequeuers && c != p
    ensures AbaFreeRun(Start(size, slots, enqueuers, dequeuers), s)
    ensures var h := RunTraced(Start(size, slots, enqueuers, dequeuers), s).h;
      && |h.claimed| == size + 2 && |h.taken| == 2 && h.claimed[1] == v && h.taken[1] == b
  {
    var x := Start(size, slots, enqueuers, dequeuers);
    var s1, x1 := Stall(x, p, q, c, v, size - 1);
    var s2, x2 := Overfill(x1, p, v);
    Then(x, s1, x1, s2, x2);
    var s3, x3 := Overtake(x2, q, c, b);
    Then(x, s1 + s2, x2, s3, x3);
    s := s1 + s2 + s3;
    FewTakesAbaFree(x, s);
  }

  // ---------------------------------------------------------------- exactly one producer

  /** What consumers get is what was put in, in that order. */
  ghost predicate InOrder<T>(h: History<T>) { h.taken <= h.claimed }

  /** At most `size - 1` elements are claimed and not taken. */
  ghost predicate Bounded<T>(h: History<T>, size: Word) { |h.claimed| <= |h.taken| + size - 1 }

  /** Everything handed out was put in. */
  ghost predicate NothingInvented<T>(h: History<T>) {
    forall i | 0 <= i < |h.taken| :: h.taken[i] in h.claimed
  }

  ghost predicate AlwaysFifo<T(!new)>(x: Traced<T>) {
    x.m.mem.Allocated() && forall s | AbaFreeRun(x, s) :: FirstInFirstOut(RunTraced(x, s), x.m.mem.size)
  }

  ghost predicate AlwaysInOrder<T(!new)>(x: Traced<T>) {
    x.m.mem.Allocated() && forall s | AbaFreeRun(x, s) :: InOrder(RunTraced(x, s).h)
  }

  ghost predicate AlwaysBounded<T(!new)>(x: Traced<T>) {
    x.m.mem.Allocated() && forall s | AbaFreeRun(x, s) :: Bounded(RunTraced(x, s).h, x.m.mem.size)
  }

  ghost predicate NeverInvents<T(!new)>(x: Traced<T>) {
    x.m.mem.Allocated() && forall s | AbaFreeRun(x, s) :: NothingInvented(RunTraced(x, s).h)
  }

  lemma OneProducerKeeps<T(!new)>(size: Word, slots: seq<T>, enqueuers: set<Tid>, dequeuers: set<Tid>)
    requires GoodSize(size) && |slots| == size && |enqueuers| <= 1
    ensures var x := Start(size, slots, enqueuers, dequeuers);
      AlwaysFifo(x) && AlwaysInOrder(x) && AlwaysBounded(x) && NeverInvents(x)
  {
    var x := Start(size, slots, enqueuers, dequeuers);
    var p := Cover(enqueuers);
    forall s | AbaFreeRun(x, s)
      ensures FirstInFirstOut(RunTraced(x, s), size) && NothingInvented(RunTraced(x, s).h)
    {
      FifoRun(size, slots, p, enqueuers, dequeuers, s);
      var h := RunTraced(x, s).h;
      assert forall i | 0 <= i < |h.taken| :: h.taken[i] == h.claimed[i];
    }
  }

  /** For every size, all producers and all consumers: the bound holds in all runs exactly when
      there is at most one producer or no consumer. All that `FirstInFirstOut` says, which is
      also that at most one write is in flight, holds exactly when there is at most one producer,
      or no consumer at size 2. */
  lemma FifoExactly<T(!new)>(size: Word, slots: seq<T>, enqueuers: set<Tid>, dequeuers: set<Tid>)
    requires GoodSize(size) && |slots| == size
    ensures AlwaysBounded(Start(size, slots, enqueuers, dequeuers)) <==> |enqueuers| <= 1 || dequeuers == {}
    ensures AlwaysFifo(Start(size, slots, enqueuers, dequeuers))
       <==> |enqueuers| <= 1 || (dequeuers == {} && size == 2)
  {
    if |enqueuers| <= 1 {
      OneProducerKeeps(size, slots, enqueuers, dequeuers);
    } else if dequeuers == {} {
      NoConsumerBound(size, slots, enqueuers);
      if size != 2 {
        var s := TwoInFlight(size, slots, enqueuers, slots[0]);
        assert !FirstInFirstOut(RunTraced(Start(size, slots, enqueuers, {}), s), size);
      }
    } else {
      var s := Broken(size, slots, enqueuers, dequeuers, slots[0], slots[0]);
    }
  }

  lemma NoConsumerBound<T(!new)>(size: Word, slots: seq<T>, enqueuers: set<Tid>)
    requires GoodSize(size) && |slots| == size
    ensures AlwaysBounded(Start(size, slots, enqueuers, {}))
    ensures size == 2 ==> AlwaysFifo(Start(size, slots, enqueuers, {}))
  {
    var x := Start(size, slots, enqueuers, {});
    CountedBegin(size, slots, enqueuers, {});
    forall s | AbaFreeRun(x, s)
      ensures Bounded(RunTraced(x, s).h, size)
      ensures size == 2 ==> FirstInFirstOut(RunTraced(x, s), size)
    {
      ClosedRun(x, s);
      if size == 2 {
        OneSlotRun(x, s);
        SizeKept(x, s);
      }
    }
  }

  /** Without a consumer, two claims that are not yet published. */
  lemma TwoInFlight<T>(size: Word, slots: seq<T>, enqueuers: set<Tid>, v: T) returns (s: seq<Action<T>>)
    requires GoodSize(size) && |slots| == size > 2 && |enqueuers| > 1
    ensures var x := Start(size, slots, enqueuers, {});
      AbaFreeRun(x, s) && |RunTraced(x, s).h.claimed| == RunTraced(x, s).h.published + 2
  {
    var x := Start(size, slots, enqueuers, {});
    var p: Tid :| p in enqueuers;
    var q := AnotherIn(enqueuers, p);
    var s1, x1 := ClaimOnly(x, 0, 0, 0, p, v);
    var s2, x2 := ClaimOnly(x1, 0, 0, 1, q, v);
    Then(x, s1, x1, s2, x2);
    s := s1 + s2;
    FewTakesAbaFree(x, s);
  }

  lemma Broken<T>(size: Word, slots: seq<T>, enqueuers: set<Tid>, dequeuers: set<Tid>, v: T, b: T)
    returns (s: seq<Action<T>>)
    requires GoodSize(size) && |slots| == size && dequeuers != {} && |enqueuers| > 1
    ensures AbaFreeRun(Start(size, slots, enqueuers, dequeuers), s)
    ensures var h := RunTraced(Start(size, slots, enqueuers, dequeuers), s).h;
      && |h.claimed| == size + 2 && |h.taken| == 2 && h.claimed[1] == v && h.taken[1] == b
  {
    var c :| c in dequeuers;
    var p := AnotherIn(enqueuers, c);
    var q := AnotherIn(enqueuers, p);
    s := TwoProducersOverfill(size, slots, enqueuers, dequeuers, p, q, c, v, b);
  }

  lemma {:induction false} NothingTaken<T>(x: Traced<T>, s: seq<Action<T>>)
    requires x.m.mem.Allocated() && x.m.dequeuers == {} && x.h.taken == []
    requires forall t | t in x.m.threads :: !Dequeuing(x.m.threads[t])
    ensures var y := RunTraced(x, s);
      && y.m.dequeuers == {} && y.h.taken == []
      && forall t | t in y.m.threads :: !Dequeuing(y.m.threads[t])
  {
    if s != [] {
      NothingTaken(x, s[..|s| - 1]);
    }
  }

  lemma NoConsumerKeeps<T(!new)>(size: Word, slots: seq<T>, enqueuers: set<Tid>)
    requires GoodSize(size) && |slots| == size
    ensures var x := Start(size, slots, enqueuers, {}); AlwaysInOrder(x) && NeverInvents(x)
  {
    var x := Start(size, slots, enqueuers, {});
    forall s | AbaFreeRun(x, s) ensures InOrder(RunTraced(x, s).h) && NothingInvented(RunTraced(x, s).h) {
      NothingTaken(x, s);
    }
  }

  /** And so does the order of what comes out, if anything does, as soon as there are two
      different values to tell apart. */
  lemma OrderExactly<T(!new)>(size: Word, slots: seq<T>, enqueuers: set<Tid>, dequeuers: set<Tid>, v: T, b: T)
    requires GoodSize(size) && |slots| == size && v != b
    ensures AlwaysInOrder(Start(size, slots, enqueuers, dequeuers)) <==> |enqueuers| <= 1 || dequeuers == {}
  {
    if dequeuers == {} {
      NoConsumerKeeps(size, slots, enqueuers);
    } else if |enqueuers| <= 1 {
      OneProducerKeeps(size, slots, enqueuers, dequeuers);
    } else {
      var s := Broken(size, slots, enqueuers, dequeuers, v, b);
    }
  }

  // ---------------------------------------------------------------- without the wrap premise

  /** A consumer `c` calls dequeue and stops before its swap, with the oldest value copied. */
  lemma CopyOnly<T>(x: Traced<T>, w: nat, c: Tid, v: T) returns (s: seq<Action<T>>, y: Traced<T>)
    requires At(x, 0, w) && w % x.m.mem.size != 0 && Enabled(x.m, CallDequeue(c, v))
    ensures y == RunTraced(x, s) && At(y, 0, w) && y.h.claimed == x.h.claimed
    ensures y.m == x.m.(threads := x.m.threads[c := DeqTake(x.m.mem.queue[0], 0)])
  {
    SlotOfTicket(x.m.mem, w);
    SlotOfTicket(x.m.mem, 0);
    ModUnique(0, x.m.mem.size, 0, 0);
    s := Calling(CallDequeue(c, v), 3);
    CallRun(x, CallDequeue(c, v), 3);
    var from := Look(x, DeqLoadRead(v));
    var h := x.h.(loaded := x.h.loaded[c := 0]);
    calc {
      Ahead(from, c, 3);
      Ahead(View(x.m.mem, h, DeqLoadLast(v, 0)), c, 2);
      Ahead(View(x.m.mem, h, DeqCopy(v, 0)), c, 1);
      Ahead(View(x.m.mem, h, DeqTake(x.m.mem.queue[0], 0)), c, 0);
    }
    y := With(x, c, Ahead(from, c, 3));
  }

  /** Out and in again, `n` times: the indices go round, and come back to where they were. */
  lemma {:induction false} Cycle<T>(x: Traced<T>, r: nat, p: Tid, d: Tid, b: T, n: nat)
    returns (s: seq<Action<T>>, y: Traced<T>)
    requires At(x, r, r + 1) && Enabled(x.m, CallEnqueue(p, b)) && Enabled(x.m, CallDequeue(d, b))
    ensures y == RunTraced(x, s) && At(y, r + n, r + n + 1) && SameThreads(x, y)
    ensures y.h.claimed == x.h.claimed + seq(n, _ => b)
    decreases n
  {
    if n == 0 {
      s, y := [], x;
      assert x.h.claimed + [] == x.h.claimed;
    } else {
      var s1, x1 := CycleOnce(x, r, p, d, b);
      var s2;
      s2, y := Cycle(x1, r + 1, p, d, b, n - 1);
      Then(x, s1, x1, s2, y);
      s := s1 + s2;
      Repeated(x.h.claimed, b, n);
    }
  }

  lemma CycleOnce<T>(x: Traced<T>, r: nat, p: Tid, d: Tid, b: T) returns (s: seq<Action<T>>, y: Traced<T>)
    requires At(x, r, r + 1) && Enabled(x.m, CallEnqueue(p, b)) && Enabled(x.m, CallDequeue(d, b))
    ensures y == RunTraced(x, s) && At(y, r + 1, r + 2) && SameThreads(x, y)
    ensures y.h.claimed == x.h.claimed + [b]
  {
    var s1, x1 := Get(x, r, r + 1, d, b);
    var s2;
    s2, y := Put(x1, r + 1, r + 1, p, b);
    Then(x, s1, x1, s2, y);
    s := s1 + s2;
  }

  /** The swap of a consumer that has slept for 2^32 takes succeeds, with what it copied then. */
  lemma TakeStale<T>(x: Traced<T>, c: Tid, a: T) returns (s: seq<Action<T>>, y: Traced<T>)
    requires At(x, WORD, WORD + 1) && c in x.m.threads && x.m.threads[c] == DeqTake(a, 0)
    ensures y == RunTraced(x, s) && y.h.taken == x.h.taken + [a] && y.h.claimed == x.h.claimed
  {
    s := Steps(c, 1);
    AloneRun(x, c, 1);
    var from := Look(x, DeqTake(a, 0));
    AheadSnoc(from, c, 0);
    assert Ahead(from, c, 0) == from;
    y := With(x, c, Ahead(from, c, 1));
  }

  /** With a second consumer to move the queue on by 2^32 elements, an old value comes out. */
  lemma SleeperTakesOld<T>(size: Word, slots: seq<T>, enqueuers: set<Tid>, dequeuers: set<Tid>,
                           p: Tid, c: Tid, d: Tid, a: T, b: T)
    returns (s: seq<Action<T>>)
    requires GoodSize(size) && |slots| == size
    requires p in enqueuers && c in dequeuers && d in dequeuers && c != p && c != d
    ensures var h := RunTraced(Start(size, slots, enqueuers, dequeuers), s).h;
      |h.taken| == WORD + 1 && h.taken[WORD] == a && |h.claimed| == WORD + 1 && h.claimed[WORD] == b
  {
    var x := Start(size, slots, enqueuers, dequeuers);
    var s1, x1 := Sleep(x, p, c, a);
    var s2, x2 := Cycle(x1, 0, p, d, b, WORD);
    Then(x, s1, x1, s2, x2);
    var s3, x3 := TakeStale(x2, c, a);
    Then(x, s1 + s2, x2, s3, x3);
    s := s1 + s2 + s3;
  }

  /** One element, and a consumer that has copied it. */
  lemma Sleep<T>(x: Traced<T>, p: Tid, c: Tid, a: T) returns (s: seq<Action<T>>, y: Traced<T>)
    requires At(x, 0, 0) && Enabled(x.m, CallEnqueue(p, a)) && Enabled(x.m, CallDequeue(c, a))
    ensures y == RunTraced(x, s) && At(y, 0, 1)
    ensures y.m == x.m.(mem := y.m.mem, threads := x.m.threads[c := DeqTake(a, 0)])
  {
    ModUnique(0, x.m.mem.size, 0, 0);
    var s1, x1 := Put(x, 0, 0, p, a);
    var s2;
    s2, y := CopyOnly(x1, 1, c, a);
    Then(x, s1, x1, s2, y);
    s := s1 + s2;
  }

  ghost predicate InOrderAnyway<T(!new)>(x: Traced<T>) {
    x.m.mem.Allocated() && forall s: seq<Action<T>> :: InOrder(RunTraced(x, s).h)
  }

  /** Without any premise on the run, order is kept exactly with one producer and one consumer:
      the premise is needed for several consumers, at every size. */
  lemma PremiseNeeded<T(!new)>(size: Word, slots: seq<T>, enqueuers: set<Tid>, dequeuers: set<Tid>, a: T, b: T)
    requires GoodSize(size) && |slots| == size && enqueuers != {} && dequeuers != {} && a != b
    ensures InOrderAnyway(Start(size, slots, enqueuers, dequeuers)) <==> |enqueuers| <= 1 && |dequeuers| <= 1
  {
    var x := Start(size, slots, enqueuers, dequeuers);
    if |enqueuers| > 1 {
      var s := Broken(size, slots, enqueuers, dequeuers, a, b);
      assert !InOrder(RunTraced(x, s).h);
    } else if |dequeuers| > 1 {
      var p :| p in enqueuers;
      var c := AnotherIn(dequeuers, p);
      var d := AnotherIn(dequeuers, c);
      var s := SleeperTakesOld(size, slots, enqueuers, dequeuers, p, c, d, a, b);
      assert !InOrder(RunTraced(x, s).h);
    } else {
      var c := Cover(dequeuers);
      OneProducerKeeps(size, slots, enqueuers, dequeuers);
      forall s: seq<Action<T>> ensures InOrder(RunTraced(x, s).h) {
        OneConsumerAbaFree(size, slots, enqueuers, dequeuers, c, s);
      }
    }
  }
}
