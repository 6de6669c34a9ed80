/** When a value can come out that nobody put in. */
module CasInvention {
  import opened Bits
  import opened PowerOfTwo
  import opened CasQueue
  import opened CasFifo
  import opened CasRuns
  import opened CasProducers

  // ---------------------------------------------------------------- runs that hand it out

  /** Where producer `q` has claimed the last slot of the round and not written it, and the
      stale producer `p` claims one more, finds the publication behind its own claim, goes on
      with the index it observes, and so publishes the slot of `q`. */
  lemma PublishAnother<T>(x: Traced<T>, p: Tid, v: T) returns (s: seq<Action<T>>, y: Traced<T>)
    requires x.m.mem.size > 1 && Readable(x, 1, x.m.mem.size - 1) && x.m.mem.writeIdx == x.m.mem.size
    requires p in x.m.threads && x.m.threads[p] == EnqLoadWrite(v, 0)
    ensures y == RunTraced(x, s)
    ensures var size := x.m.mem.size;
      y == With(x, p, View(
        x.m.mem.(queue := x.m.mem.queue[0 := v], writeIdx := size + 1, lastWriteIdx := size,
          length := Increment(x.m.mem.length)),
        x.h.(claimed := x.h.claimed + [v], published := size), Idle))
  {
    var from := Look(x, EnqLoadWrite(v, 0));
    Astray(from, p);
    s, y := StepsLead(x, p, from, 7, Ahead(from, p, 7));
  }

  lemma Astray<T>(from: View<T>, p: Tid)
    requires from.mem.Allocated() && GoodSize(from.mem.size) && from.l.EnqLoadWrite? && from.l.read == 0
    requires var size := from.mem.size;
      from.mem.writeIdx == size && from.mem.lastWriteIdx == size - 1 && from.h.published == size - 1
    ensures var size := from.mem.size;
      Ahead(from, p, 7)
        == View(from.mem.(queue := from.mem.queue[0 := from.l.value], writeIdx := size + 1, lastWriteIdx := size,
                          length := Increment(from.mem.length)),
             from.h.(claimed := from.h.claimed + [from.l.value], published := size), Idle)
  {
    StaleRoom(from.mem);
    ClaimAstray(from, p);
  }

  lemma PublishUnwritten<T>(x: Traced<T>, p: Tid, q: Tid, c: Tid, d: Tid, v: T)
    returns (s: seq<Action<T>>, y: Traced<T>)
    requires At(x, 0, 0) && p != q && p != c && d != q
    requires Enabled(x.m, CallEnqueue(p, v)) && Enabled(x.m, CallEnqueue(q, v))
    requires Enabled(x.m, CallDequeue(c, v)) && Enabled(x.m, CallDequeue(d, v))
    ensures y == RunTraced(x, s) && Readable(y, 1, x.m.mem.size) && Enabled(y.m, CallDequeue(d, v))
    ensures y.h.claimed == seq(x.m.mem.size + 1, _ => v)
    ensures var last := x.m.mem.size - 1;
      last > 0 && y.m.mem.size == x.m.mem.size && y.m.mem.queue[last] == x.m.mem.queue[last]
  {
    var size := x.m.mem.size;
    var s1, x1 := Stall(x, p, q, c, v, size - 2);
    var s2, x2 := ClaimOnly(x1, 1, size - 1, size - 1, q, v);
    Then(x, s1, x1, s2, x2);
    var s3;
    s3, y := PublishAnother(x2, p, v);
    Then(x, s1 + s2, x2, s3, y);
    s := s1 + s2 + s3;
    TwoMore(v, size - 1);
  }

  lemma TwoMore<T>(v: T, n: nat)
    ensures seq(n, _ => v) + [v] + [v] == seq(n + 2, _ => v)
  {
  }

  /** Two producers `p` and `q`, a consumer `c` other than `p` at first and a consumer `d` other
      than `q` at last: at every size a value comes out that the slot held before anything was
      enqueued. */
  lemma TwoProducersInvent<T>(x: Traced<T>, p: Tid, q: Tid, c: Tid, d: Tid, v: T) returns (s: seq<Action<T>>)
    requires At(x, 0, 0) && p != q && p != c && d != q
    requires Enabled(x.m, CallEnqueue(p, v)) && Enabled(x.m, CallEnqueue(q, v))
    requires Enabled(x.m, CallDequeue(c, v)) && Enabled(x.m, CallDequeue(d, v))
    ensures AbaFreeRun(x, s)
    ensures var h := RunTraced(x, s).h; Only(h.claimed, v) && x.m.mem.queue[x.m.mem.size - 1] in h.taken
  {
    var s1, x1 := PublishUnwritten(x, p, q, c, d, v);
    var s2, x2 := TakeRound(x1, d, v);
    Then(x, s1, x1, s2, x2);
    s := s1 + s2;
    FewTakesAbaFree(x, s);
  }

  ghost predicate Only<T>(s: seq<T>, v: T) { forall i | 0 <= i < |s| :: s[i] == v }

  lemma TakeRound<T>(x: Traced<T>, c: Tid, v: T) returns (s: seq<Action<T>>, y: Traced<T>)
    requires Readable(x, 1, x.m.mem.size) && Enabled(x.m, CallDequeue(c, v))
    ensures y == RunTraced(x, s) && y.h.claimed == x.h.claimed
    ensures |y.h.taken| == x.m.mem.size && y.h.taken[x.m.mem.size - 1] == x.m.mem.queue[x.m.mem.size - 1]
  {
    s, y := Drain(x, 1, x.m.mem.size, c, v, x.m.mem.size - 1);
    CellsLast(x.m.mem.queue, 1, x.m.mem.size - 1);
  }

  /** Where one thread is both, and the size is not 2: producer `p` claims the first slot, and
      `c` enqueues behind it, publishes that slot, and dequeues it. */
  lemma ProducerConsumerInvents<T>(x: Traced<T>, p: Tid, c: Tid, v: T) returns (s: seq<Action<T>>)
    requires At(x, 0, 0) && x.m.mem.size > 2 && p != c
    requires Enabled(x.m, CallEnqueue(p, v)) && Enabled(x.m, CallEnqueue(c, v)) && Enabled(x.m, CallDequeue(c, v))
    ensures AbaFreeRun(x, s)
    ensures var h := RunTraced(x, s).h; Only(h.claimed, v) && x.m.mem.queue[0] in h.taken
  {
    var size := x.m.mem.size;
    var s1, x1 := ClaimOnly(x, 0, 0, 0, p, v);
    var s2, x2 := EnqueueAstray(x1, c, v);
    Then(x, s1, x1, s2, x2);
    var s3, x3 := Get(x2, 0, 1, c, v);
    Then(x, s1 + s2, x2, s3, x3);
    s := s1 + s2 + s3;
    ModUnique(0, size, 0, 0);
    FewTakesAbaFree(x, s);
  }

  lemma EnqueueAstray<T>(x: Traced<T>, c: Tid, v: T) returns (s: seq<Action<T>>, y: Traced<T>)
    requires Readable(x, 0, 0) && x.m.mem.size > 2 && x.m.mem.writeIdx == 1 && Enabled(x.m, CallEnqueue(c, v))
    ensures y == RunTraced(x, s) && Readable(y, 0, 1) && SameThreads(x, y)
    ensures y.m.mem.queue == x.m.mem.queue[1 := v] && y.h.claimed == x.h.claimed + [v]
  {
    SlotOfTicket(x.m.mem, 1);
    SlotOfTicket(x.m.mem, 2);
    SlotOfTicket(x.m.mem, 0);
    ModUnique(1, x.m.mem.size, 0, 1);
    s := Calling(CallEnqueue(c, v), 8);
    CallRun(x, CallEnqueue(c, v), 8);
    ClaimAstray(Next(Look(x, EnqLoadRead(v)), c), c);
    assert x.m.threads[c := Idle] == x.m.threads;
    y := RunTraced(x, s);
  }

  // ---------------------------------------------------------------- the exception

  /** Size 2, a consumer `c` that also produces, and one more producer `e`: the memory, what was
      claimed, and where the two threads are. */
  datatype Duo<T> = Duo(mem: Memory<T>, claimed: seq<T>, c: Local<T>, e: Local<T>)

  /** What a thread carries into a slot or out of one was put in. */
  ghost predicate Carries<T>(claimed: seq<T>, l: Local<T>) {
    match l
    case EnqStore(v, _) => v in claimed
    case EnqPublish(v, _) => v in claimed
    case DeqTake(d, _) => d in claimed
    case _ => true
  }

  /** Only `c` moves the read index, so what it loaded is current. */
  predicate Current<T>(mem: Memory<T>, c: Local<T>) {
    c.EnqLoadWrite? || c.DeqLoadLast? || c.DeqCopy? || c.DeqTake? ==> c.read == mem.readIdx
  }

  predicate Writing<T>(l: Local<T>) { l.EnqStore? || l.EnqPublish? }

  predicate Reading<T>(l: Local<T>) { l.DeqCopy? || l.DeqTake? }

  /** Neither writing nor reading, and about nothing but the first ticket. */
  predicate Early<T>(l: Local<T>) {
    !Writing(l) && !Reading(l) && (l.EnqLoadWrite? ==> l.read == 0) && (l.EnqClaim? ==> l.write == 0)
  }

  predicate Indexed<T>(mem: Memory<T>, read: Word, last: Word, write: Word) {
    mem.readIdx == read && mem.lastWriteIdx == last && mem.writeIdx == write
  }

  /** The first slot: unclaimed, claimed, or written and unpublished by either thread. */
  ghost predicate FirstSlot<T>(d: Duo<T>)
    requires d.mem.Allocated()
  {
    || (Indexed(d.mem, 0, 0, 0) && Early(d.c) && Early(d.e))
    || (Indexed(d.mem, 0, 0, 1) && ((Opening(d, d.c) && Early(d.e)) || (Opening(d, d.e) && Early(d.c))))
  }

  ghost predicate Opening<T>(d: Duo<T>, l: Local<T>)
    requires d.mem.Allocated()
  {
    Writing(l) && l.write == 0 && (l.EnqPublish? ==> d.mem.queue[0] in d.claimed)
  }

  /** The first slot is published, and the second unclaimed. */
  ghost predicate Between<T>(d: Duo<T>)
    requires d.mem.Allocated()
  {
    && d.mem.queue[0] in d.claimed && d.mem.readIdx <= 1 && Indexed(d.mem, d.mem.readIdx, 1, 1)
    && Midway(d.mem, d.c) && Midway(d.mem, d.e)
  }

  predicate Midway<T>(mem: Memory<T>, l: Local<T>) {
    && !Writing(l) && (Reading(l) ==> l.read == 0)
    && (l.EnqLoadWrite? ==> l.read <= mem.readIdx)
    && (l.EnqClaim? ==> l.write == 0 || (l.write == 1 && mem.readIdx == 1))
  }

  /** The second slot is claimed and not written: by the consumer, who then does not consume, or
      by the other, and then the consumer finds the queue both empty and full. */
  ghost predicate SecondSlot<T>(d: Duo<T>)
    requires d.mem.Allocated()
  {
    && d.mem.queue[0] in d.claimed
    && (|| (d.c.EnqStore? && d.c.write == 1)
        || (d.e.EnqStore? && d.e.write == 1 && Indexed(d.mem, 1, 1, 2) && Barred(d.c)))
  }

  predicate Barred<T>(c: Local<T>) {
    !Writing(c) && !Reading(c) && (c.EnqClaim? ==> c.write != 2)
  }

  /** Both slots hold what was put in. */
  ghost predicate Written<T>(d: Duo<T>)
    requires d.mem.Allocated() && d.mem.size == 2
  {
    d.mem.queue[0] in d.claimed && d.mem.queue[1] in d.claimed
  }

  ghost predicate Sound<T>(d: Duo<T>) {
    && d.mem.Allocated() && d.mem.size == 2
    && Carries(d.claimed, d.c) && Carries(d.claimed, d.e) && Current(d.mem, d.c) && !Dequeuing(d.e)
    && (FirstSlot(d) || Between(d) || SecondSlot(d) || Written(d))
  }

  function Claims<T>(mem: Memory<T>, claimed: seq<T>, l: Local<T>, spurious: bool): seq<T> {
    if l.EnqClaim? && mem.writeIdx == l.write && !spurious then claimed + [l.value] else claimed
  }

  lemma FourSlots<T>(mem: Memory<T>)
    requires mem.Allocated() && mem.size == 2
    ensures mem.Slot(0) == 0 && mem.Slot(1) == 1 && mem.Slot(2) == 0 && mem.Slot(3) == 1
  {
    assert 2 == Pow2(1);
    SlotOfTicket(mem, 0);
    SlotOfTicket(mem, 1);
    SlotOfTicket(mem, 2);
    SlotOfTicket(mem, 3);
  }

  lemma ConsumerStep<T>(d: Duo<T>, spurious: bool)
    requires Sound(d)
    ensures var (mem, l) := Advance(d.mem, d.c, spurious);
      Sound(Duo(mem, Claims(d.mem, d.claimed, d.c, spurious), l, d.e))
  {
    FourSlots(d.mem);
  }

  lemma ProducerStep<T>(d: Duo<T>, spurious: bool)
    requires Sound(d)
    ensures var (mem, l) := Advance(d.mem, d.e, spurious);
      Sound(Duo(mem, Claims(d.mem, d.claimed, d.e, spurious), d.c, l))
  {
    FourSlots(d.mem);
  }

  function LocalOf<T>(m: Machine<T>, t: Tid): Local<T> {
    if t in m.threads then m.threads[t] else Idle
  }

  /** A run of these two threads in which nothing was invented so far. */
  ghost predicate Honest<T>(x: Traced<T>, c: Tid, e: Tid) {
    && c != e && x.m.threads.Keys <= {c, e} && x.m.enqueuers <= {c, e} && x.m.dequeuers <= {c}
    && Sound(Duo(x.m.mem, x.h.claimed, LocalOf(x.m, c), LocalOf(x.m, e)))
    && NothingInvented(x.h)
  }

  lemma HonestStep<T>(x: Traced<T>, a: Action<T>, c: Tid, e: Tid)
    requires Honest(x, c, e)
    ensures Honest(ExecTraced(x, a), c, e)
  {
    var d := Duo(x.m.mem, x.h.claimed, LocalOf(x.m, c), LocalOf(x.m, e));
    if Enabled(x.m, a) && a.Step? {
      if a.tid == c {
        ConsumerStep(d, a.spurious);
      } else {
        ProducerStep(d, a.spurious);
      }
    }
  }

  lemma {:induction false} HonestRun<T>(x: Traced<T>, s: seq<Action<T>>, c: Tid, e: Tid)
    requires Honest(x, c, e)
    ensures Honest(RunTraced(x, s), c, e)
  {
    if s != [] {
      HonestRun(x, s[..|s| - 1], c, e);
      HonestStep(RunTraced(x, s[..|s| - 1]), s[|s| - 1], c, e);
    }
  }

  // ---------------------------------------------------------------- exactly when

  /** Two producers one of whom is the only consumer, at size 2. */
  predicate Exception(size: Word, enqueuers: set<Tid>, dequeuers: set<Tid>) {
    size == 2 && |enqueuers| == 2 && |dequeuers| == 1 && dequeuers <= enqueuers
  }

  lemma ExceptionKeeps<T(!new)>(size: Word, slots: seq<T>, enqueuers: set<Tid>, dequeuers: set<Tid>)
    requires GoodSize(size) && |slots| == size && Exception(size, enqueuers, dequeuers)
    ensures NeverInvents(Start(size, slots, enqueuers, dequeuers))
  {
    var x := Start(size, slots, enqueuers, dequeuers);
    var c := Cover(dequeuers);
    var e := AnotherIn(enqueuers, c);
    TwoOf(enqueuers, dequeuers, c, e);
    forall s | AbaFreeRun(x, s) ensures NothingInvented(RunTraced(x, s).h) {
      HonestRun(x, s, c, e);
    }
  }

  lemma TwoOf(a: set<Tid>, b: set<Tid>, c: Tid, e: Tid)
    requires |a| == 2 && |b| == 1 && b <= {c} && b <= a && e in a && e != c
    ensures a <= {c, e}
  {
    assert c in b;
    AtMostOne(a - {e}, c);
  }

  lemma Invented<T(!new)>(x: Traced<T>, s: seq<Action<T>>, i: nat, v: T)
    requires x.m.mem.Allocated() && AbaFreeRun(x, s) && i < |x.m.mem.queue| && v !in x.m.mem.queue
    requires Only(RunTraced(x, s).h.claimed, v) && x.m.mem.queue[i] in RunTraced(x, s).h.taken
    ensures !NeverInvents(x)
  {
    var h := RunTraced(x, s).h;
    var k :| 0 <= k < |h.taken| && h.taken[k] == x.m.mem.queue[i];
    assert h.taken[k] !in h.claimed;
  }

  lemma TwoProducersOtherwise<T(!new)>(size: Word, slots: seq<T>, enqueuers: set<Tid>, dequeuers: set<Tid>, v: T)
    requires GoodSize(size) && |slots| == size && dequeuers != {} && v !in slots
    requires |enqueuers| > 1 && !Exception(size, enqueuers, dequeuers)
    ensures !NeverInvents(Start(size, slots, enqueuers, dequeuers))
  {
    var x := Start(size, slots, enqueuers, dequeuers);
    if |dequeuers| > 1 {
      var p: Tid :| p in enqueuers;
      var q := AnotherIn(enqueuers, p);
      var c := AnotherIn(dequeuers, p);
      var d := AnotherIn(dequeuers, q);
      var s := TwoProducersInvent(x, p, q, c, d, v);
      Invented(x, s, size - 1, v);
    } else {
      var c: Tid :| c in dequeuers;
      var p := AnotherIn(enqueuers, c);
      if q: Tid :| q in enqueuers && q != p && q != c {
        var s := TwoProducersInvent(x, p, q, c, c, v);
        Invented(x, s, size - 1, v);
      } else {
        PairWith(enqueuers, dequeuers, p, c);
        var s := ProducerConsumerInvents(x, p, c, v);
        Invented(x, s, 0, v);
      }
    }
  }

  lemma PairWith(a: set<Tid>, b: set<Tid>, p: Tid, c: Tid)
    requires |a| > 1 && |b| == 1 && c in b && p in a && p != c && a <= {p, c}
    ensures c in a && |a| == 2 && b <= a
  {
    SubsetSize(a, {p, c});
    AtMostOne(b, c);
    var q := AnotherIn(a, p);
  }

  /** For every size, all producers and all consumers: everything that comes out was put in, in
      all runs, exactly when there is at most one producer, or no consumer, or in the one exception. The value
      put in is one that the slots do not hold to begin with. */
  lemma InventionExactly<T(!new)>(size: Word, slots: seq<T>, enqueuers: set<Tid>, dequeuers: set<Tid>, v: T)
    requires GoodSize(size) && |slots| == size && v !in slots
    ensures NeverInvents(Start(size, slots, enqueuers, dequeuers))
       <==> |enqueuers| <= 1 || dequeuers == {} || Exception(size, enqueuers, dequeuers)
  {
    if dequeuers == {} {
      NoConsumerKeeps(size, slots, enqueuers);
    } else if |enqueuers| <= 1 {
      OneProducerKeeps(size, slots, enqueuers, dequeuers);
    } else if Exception(size, enqueuers, dequeuers) {
      ExceptionKeeps(size, slots, enqueuers, dequeuers);
    } else {
      TwoProducersOtherwise(size, slots, enqueuers, dequeuers, v);
    }
  }
}
