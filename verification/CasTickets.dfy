/** What any number of producers and consumers keep of the order of the tickets: nothing is
    taken before it is published, or published before it is claimed; and without consumers the
    bound is kept too. */
module CasTickets {
  import opened Bits
  import opened PowerOfTwo
  import opened CasQueue
  import opened CasCounting
  import opened CasFifo

  // ---------------------------------------------------------------- the order of the tickets

  ghost predicate Counted<T>(x: Traced<T>) {
    && x.m.mem.Allocated() && GoodSize(x.m.mem.size) && Indices(x.m.mem, x.h)
    && |x.h.taken| <= x.h.published
    && |x.h.claimed| == x.h.published + Tally(x.m.threads, Unpublished)
    && forall t | t in x.m.threads :: Kept(x.m, x.h, t, x.m.threads[t])
  }

  /** A thread does what it may, what it loaded it has seen, and it goes on to take only what
      was there when it looked. */
  ghost predicate Kept<T>(m: Machine<T>, h: History<T>, t: Tid, l: Local<T>) {
    && (Enqueuing(l) ==> t in m.enqueuers) && (Dequeuing(l) ==> t in m.dequeuers)
    && (l.EnqLoadWrite? || l.DeqLoadLast? || l.DeqCopy? || l.DeqTake? ==> Seen(h, t, l.read))
    && (l.DeqCopy? || l.DeqTake? ==> h.loaded[t] < |h.taken| || |h.taken| < h.published)
  }

  lemma CountedBegin<T>(size: Word, slots: seq<T>, enqueuers: set<Tid>, dequeuers: set<Tid>)
    requires GoodSize(size) && |slots| == size
    ensures Counted(Begin(Constructed(size, slots, enqueuers, dequeuers)))
  {
    TallyZero(Constructed(size, slots, enqueuers, dequeuers).threads, Unpublished);
  }

  lemma CountedStep<T>(x: Traced<T>, a: Action<T>)
    requires Counted(x) && AbaFree(x, a)
    ensures Counted(ExecTraced(x, a))
  {
    if Enabled(x.m, a) {
      var x', t := ExecTraced(x, a), a.tid;
      var l, l' := x.m.threads[t], x'.m.threads[t];
      TallyUpdate(x.m.threads, t, l', Unpublished);
      if a.Step? {
        OneStep(x, t, l, a.spurious);
      }
    }
  }

  /** What the acting thread does to the indices and to itself. */
  ghost predicate Stepped<T>(x: Traced<T>, t: Tid, l: Local<T>, spurious: bool)
    requires x.m.mem.Allocated()
  {
    var (mem, l') := Advance(x.m.mem, l, spurious);
    var h := RecordStep(x.m.mem, x.h, t, l, spurious);
    && Indices(mem, h) && |h.taken| <= h.published && Kept(x.m, h, t, l')
    && |h.claimed| - h.published == |x.h.claimed| - x.h.published + One(Unpublished(l')) - One(Unpublished(l))
  }

  lemma OneStep<T>(x: Traced<T>, t: Tid, l: Local<T>, spurious: bool)
    requires Counted(x) && t in x.m.threads && l == x.m.threads[t] && AbaFree(x, Step(t, spurious))
    ensures Stepped(x, t, l, spurious)
  {
    if l.EnqClaim? || l.EnqPublish? {
      WriteStep(x, t, l, spurious);
    } else if l.DeqTake? {
      TakeStep(x, t, l, spurious);
    } else if l.DeqLoadLast? {
      TestStep(x, t, l, spurious);
    } else {
      PlainStep(x, t, l, spurious);
    }
  }

  lemma WriteStep<T>(x: Traced<T>, t: Tid, l: Local<T>, spurious: bool)
    requires Counted(x) && t in x.m.threads && l == x.m.threads[t] && (l.EnqClaim? || l.EnqPublish?)
    ensures Stepped(x, t, l, spurious)
  {
    IncrementTicket(|x.h.claimed|);
    IncrementTicket(x.h.published);
    if l.EnqPublish? {
      Counts(x.m.threads, t, Unpublished);
    }
  }

  /** If the test finds different slots and nothing was taken since the load, there is something. */
  lemma TestStep<T>(x: Traced<T>, t: Tid, l: Local<T>, spurious: bool)
    requires Counted(x) && t in x.m.threads && l == x.m.threads[t] && l.DeqLoadLast?
    ensures Stepped(x, t, l, spurious)
  {
  }

  lemma PlainStep<T>(x: Traced<T>, t: Tid, l: Local<T>, spurious: bool)
    requires Counted(x) && t in x.m.threads && l == x.m.threads[t]
    requires !l.EnqClaim? && !l.EnqPublish? && !l.DeqTake? && !l.DeqLoadLast?
    ensures Stepped(x, t, l, spurious)
  {
  }

  /** A swap that succeeds takes something that was published. */
  lemma TakeStep<T>(x: Traced<T>, t: Tid, l: Local<T>, spurious: bool)
    requires Counted(x) && t in x.m.threads && l == x.m.threads[t] && l.DeqTake? && AbaFree(x, Step(t, spurious))
    ensures Stepped(x, t, l, spurious)
  {
    IncrementTicket(|x.h.taken|);
    if x.m.mem.readIdx == l.read {
      SameTicket(x.h.loaded[t], |x.h.taken|);
    }
  }

  lemma {:induction false} CountedRun<T>(x: Traced<T>, s: seq<Action<T>>)
    requires Counted(x) && AbaFreeRun(x, s)
    ensures Counted(RunTraced(x, s))
  {
    if s != [] {
      CountedRun(x, s[..|s| - 1]);
      CountedStep(RunTraced(x, s[..|s| - 1]), s[|s| - 1]);
    }
  }

  // ---------------------------------------------------------------- without consumers

  /** Nothing is taken, so every read index is current, and the producers share one round. */
  ghost predicate Closed<T>(x: Traced<T>) {
    && Counted(x) && x.m.dequeuers == {} && x.h.taken == [] && |x.h.claimed| <= x.m.mem.size - 1
    && forall t | t in x.m.threads ::
         x.m.threads[t].EnqClaim? ==> x.m.threads[t].write < x.m.mem.size - 1
  }

  lemma ClosedStep<T>(x: Traced<T>, a: Action<T>)
    requires Closed(x)
    ensures Closed(ExecTraced(x, a))
  {
    CountedStep(x, a);
    if Enabled(x.m, a) && a.Step? {
      ClosedTest(x, a.tid, a.spurious);
    }
  }

  /** The test lets a producer claim all but the last slot, and the claims stay within that. */
  lemma ClosedTest<T>(x: Traced<T>, t: Tid, spurious: bool)
    requires Closed(x) && t in x.m.threads
    ensures var l := x.m.threads[t];
      var l' := Advance(x.m.mem, l, spurious).1;
      && (l'.EnqClaim? ==> l'.write < x.m.mem.size - 1)
      && RecordStep(x.m.mem, x.h, t, l, spurious).taken == []
      && |RecordStep(x.m.mem, x.h, t, l, spurious).claimed| <= x.m.mem.size - 1
  {
    if x.m.threads[t].EnqLoadWrite? {
      FullTest(x.m.mem, |x.h.claimed|, 0);
    }
  }

  lemma {:induction false} ClosedRun<T>(x: Traced<T>, s: seq<Action<T>>)
    requires Closed(x)
    ensures Closed(RunTraced(x, s))
  {
    if s != [] {
      ClosedRun(x, s[..|s| - 1]);
      ClosedStep(RunTraced(x, s[..|s| - 1]), s[|s| - 1]);
    }
  }

  /** At size 2 they share one slot. */
  ghost predicate OneSlot<T>(x: Traced<T>) {
    && Closed(x) && x.m.mem.size == 2
    && (x.h.published >= 1 ==> x.m.mem.queue[0] == x.h.claimed[0])
    && forall t | t in x.m.threads :: InOneSlot(x, x.m.threads[t])
  }

  ghost predicate InOneSlot<T>(x: Traced<T>, l: Local<T>)
    requires x.m.mem.Allocated()
  {
    match l
    case EnqStore(v, w) => x.h.claimed == [v] && w == 0
    case EnqPublish(v, w) => x.h.claimed == [v] && w == 0 && x.m.mem.queue[0] == v
    case _ => true
  }

  lemma OneSlotStep<T>(x: Traced<T>, a: Action<T>)
    requires OneSlot(x)
    ensures OneSlot(ExecTraced(x, a))
  {
    ClosedStep(x, a);
    if Enabled(x.m, a) && a.Step? {
      OneSlotActs(x, a.tid, a.spurious);
      var x' := ExecTraced(x, a);
      forall u | u in x.m.threads && u != a.tid ensures InOneSlot(x', x.m.threads[u]) {
        OneSlotKept(x, a, u);
      }
    }
  }

  lemma OneSlotActs<T>(x: Traced<T>, t: Tid, spurious: bool)
    requires OneSlot(x) && t in x.m.threads
    ensures var x' := ExecTraced(x, Step(t, spurious));
      InOneSlot(x', x'.m.threads[t]) && (x'.h.published >= 1 ==> x'.m.mem.queue[0] == x'.h.claimed[0])
  {
    var l := x.m.threads[t];
    if l.EnqStore? {
      SlotOfTicket(x.m.mem, 0);
    }
    if l.EnqPublish? {
      Counts(x.m.threads, t, Unpublished);
    }
  }

  lemma OneSlotKept<T>(x: Traced<T>, a: Action<T>, u: Tid)
    requires OneSlot(x) && Enabled(x.m, a) && a.Step? && u in x.m.threads && u != a.tid
    ensures InOneSlot(ExecTraced(x, a), x.m.threads[u])
  {
    if x.m.threads[a.tid].EnqStore? {
      SlotOfTicket(x.m.mem, 0);
    }
  }

  lemma Counts<T>(threads: map<Tid, Local<T>>, t: Tid, p: Local<T> -> bool)
    requires t in threads && p(threads[t])
    ensures Tally(threads, p) >= 1
  {
    assert t in Holders(threads, p);
  }

  lemma {:induction false} OneSlotRun<T>(x: Traced<T>, s: seq<Action<T>>)
    requires OneSlot(x)
    ensures OneSlot(RunTraced(x, s))
  {
    if s != [] {
      OneSlotRun(x, s[..|s| - 1]);
      OneSlotStep(RunTraced(x, s[..|s| - 1]), s[|s| - 1]);
    }
  }
}
