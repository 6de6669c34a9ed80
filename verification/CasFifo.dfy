/** One producer, any number of consumers: every interleaving keeps first-in-first-out order.
    The history (what was claimed, published, taken, in unbounded tickets) is recorded beside
    the machine and never read by it. */
module CasFifo {
  import opened Bits
  import opened PowerOfTwo
  import opened CasQueue

  /** `claimed` and `taken` list values in the order of the successful compare-and-swaps on
      the write and the read index; `loaded[t]` is the read ticket thread t saw at its last
      load of the read index. */
  datatype History<T> = History(claimed: seq<T>, published: nat, taken: seq<T>, loaded: map<Tid, nat>)

  datatype Traced<T> = Traced(m: Machine<T>, h: History<T>)

  function RecordStep<T>(mem: Memory<T>, h: History<T>, t: Tid, l: Local<T>, spurious: bool): History<T> {
    match l
    case EnqLoadRead(_) => h.(loaded := h.loaded[t := |h.taken|])
    case DeqLoadRead(_) => h.(loaded := h.loaded[t := |h.taken|])
    case EnqClaim(v, write) =>
      if mem.writeIdx == write && !spurious then h.(claimed := h.claimed + [v]) else h
    case EnqPublish(_, write) =>
      if mem.lastWriteIdx == write && !spurious then h.(published := h.published + 1) else h
    case DeqTake(d, read) =>
      if mem.readIdx == read && !spurious then h.(taken := h.taken + [d]) else h
    case _ => h
  }

  function Record<T>(m: Machine<T>, h: History<T>, a: Action<T>): History<T> {
    if Enabled(m, a) && a.Step? then RecordStep(m.mem, h, a.tid, m.threads[a.tid], a.spurious) else h
  }

  function ExecTraced<T>(x: Traced<T>, a: Action<T>): (x': Traced<T>)
    requires x.m.mem.Allocated()
    ensures x'.m.mem.Allocated()
  {
    Traced(Exec(x.m, a), Record(x.m, x.h, a))
  }

  function RunTraced<T>(x: Traced<T>, schedule: seq<Action<T>>): (x': Traced<T>)
    requires x.m.mem.Allocated()
    ensures x'.m.mem.Allocated()
    ensures x'.m == Run(x.m, schedule)
  {
    if schedule == [] then x
    else ExecTraced(RunTraced(x, schedule[..|schedule| - 1]), schedule[|schedule| - 1])
  }

  function Begin<T>(m: Machine<T>): Traced<T> {
    Traced(m, History([], 0, [], map[]))
  }

  /** A compare-and-swap on the read index cannot mistake a wrapped index for the one it
      loaded: fewer than 2^32 elements were taken since. */
  predicate AbaFree<T>(x: Traced<T>, a: Action<T>) {
    a.Step? && a.tid in x.m.threads && x.m.threads[a.tid].DeqTake? && a.tid in x.h.loaded
    ==> |x.h.taken| - x.h.loaded[a.tid] < WORD
  }

  /** Every compare-and-swap of the run is free of that confusion. */
  ghost predicate AbaFreeRun<T>(x: Traced<T>, schedule: seq<Action<T>>)
    requires x.m.mem.Allocated()
  {
    schedule == []
    || (var n := |schedule| - 1;
        AbaFreeRun(x, schedule[..n]) && AbaFree(RunTraced(x, schedule[..n]), schedule[n]))
  }

  // ---------------------------------------------------------------- the invariant

  ghost predicate Indices<T>(mem: Memory<T>, h: History<T>) {
    && mem.readIdx == |h.taken| % WORD
    && mem.writeIdx == |h.claimed| % WORD
    && mem.lastWriteIdx == h.published % WORD
  }

  /** read <= last write <= write <= read + size - 1, and at most one write in flight. */
  ghost predicate Window<T>(h: History<T>, size: int) {
    && |h.taken| <= h.published <= |h.claimed| <= |h.taken| + size - 1
    && |h.claimed| <= h.published + 1
  }

  /** Every published element not yet taken is still in its slot. */
  ghost predicate SlotsHold<T>(mem: Memory<T>, h: History<T>)
    requires mem.Allocated()
  {
    h.published <= |h.claimed|
    && forall i | |h.taken| <= i < h.published :: mem.queue[i % mem.size] == h.claimed[i]
  }

  ghost predicate Seen<T>(h: History<T>, t: Tid, read: Word) {
    t in h.loaded && h.loaded[t] <= |h.taken| && read == h.loaded[t] % WORD
  }

  ghost predicate LocalOk<T>(mem: Memory<T>, h: History<T>, t: Tid, l: Local<T>)
    requires mem.Allocated() && h.published <= |h.claimed|
  {
    match l
    case EnqLoadWrite(_, read) => Seen(h, t, read) && |h.claimed| <= h.loaded[t] + mem.size - 1
    case EnqClaim(_, write) => write == |h.claimed| % WORD && |h.claimed| + 1 <= |h.taken| + mem.size - 1
    case EnqStore(v, write) =>
      h.published < |h.claimed| && write == h.published % WORD && h.claimed[h.published] == v
    case EnqPublish(v, write) =>
      && h.published < |h.claimed| && write == h.published % WORD && h.claimed[h.published] == v
      && mem.queue[h.published % mem.size] == h.claimed[h.published]
    case DeqLoadLast(_, read) => Seen(h, t, read)
    case DeqCopy(_, read) => Seen(h, t, read) && (h.loaded[t] == |h.taken| ==> |h.taken| < h.published)
    case DeqTake(d, read) =>
      Seen(h, t, read) && (h.loaded[t] == |h.taken| ==> |h.taken| < h.published && d == h.claimed[|h.taken|])
    case _ => true
  }

  predicate Enqueuing<T>(l: Local<T>) {
    l.EnqLoadRead? || l.EnqLoadWrite? || l.EnqClaim? || l.EnqStore? || l.EnqPublish? || l.EnqCount? || l.EnqReturn?
  }

  predicate InFlight<T>(l: Local<T>) {
    l.EnqStore? || l.EnqPublish?
  }

  /** The part of the invariant that mentions no thread. */
  ghost predicate Core<T>(mem: Memory<T>, h: History<T>) {
    && mem.Allocated() && GoodSize(mem.size)
    && Indices(mem, h)
    && Window(h, mem.size)
    && h.taken <= h.claimed
    && SlotsHold(mem, h)
  }

  /** The invariant with no producer but `p`. */
  ghost predicate Solo<T>(x: Traced<T>, p: Tid) {
    && Core(x.m.mem, x.h)
    && x.m.enqueuers <= {p}
    && (p in x.m.threads && InFlight(x.m.threads[p]) <==> x.h.published < |x.h.claimed|)
    && forall t | t in x.m.threads ::
         LocalOk(x.m.mem, x.h, t, x.m.threads[t]) && (Enqueuing(x.m.threads[t]) ==> t == p)
  }

  lemma SoloBegin<T>(size: Word, slots: seq<T>, p: Tid, enqueuers: set<Tid>, dequeuers: set<Tid>)
    requires GoodSize(size) && |slots| == size && enqueuers <= {p}
    ensures Solo(Begin(Constructed(size, slots, enqueuers, dequeuers)), p)
  {
  }

  /** What a step may do to the history without disturbing the other threads. */
  ghost predicate Grows<T>(h: History<T>, h': History<T>) {
    && |h.taken| <= |h'.taken| && h.claimed <= h'.claimed && h'.published <= |h'.claimed|
    && (|h'.taken| == |h.taken| ==> h.published <= h'.published)
  }

  lemma OthersOk<T>(mem: Memory<T>, h: History<T>, mem': Memory<T>, h': History<T>, t: Tid, l: Local<T>)
    requires mem.Allocated() && mem'.Allocated() && mem'.size == mem.size
    requires h.published <= |h.claimed| && Grows(h, h')
    requires t in h.loaded ==> t in h'.loaded && h'.loaded[t] == h.loaded[t]
    requires LocalOk(mem, h, t, l)
    requires Enqueuing(l) ==> h'.claimed == h.claimed && h'.published == h.published && mem'.queue == mem.queue
    ensures LocalOk(mem', h', t, l)
  {
  }

  ghost predicate MayAct<T>(mem: Memory<T>, h: History<T>, t: Tid, l: Local<T>, spurious: bool) {
    && Core(mem, h) && LocalOk(mem, h, t, l)
    && (Enqueuing(l) ==> (InFlight(l) <==> h.published < |h.claimed|))
    && (l.DeqTake? ==> |h.taken| - h.loaded[t] < WORD)
  }

  /** What the acting thread establishes: the shared part of the invariant, its own local
      part, and how little it changed for the others. */
  ghost predicate Acted<T>(mem: Memory<T>, h: History<T>, t: Tid, l: Local<T>, mem': Memory<T>, h': History<T>,
                           l': Local<T>) {
    && Core(mem', h')
    && mem'.size == mem.size
    && Grows(h, h')
    && LocalOk(mem', h', t, l')
    && (Enqueuing(l) || Enqueuing(l') ==> (InFlight(l') <==> h'.published < |h'.claimed|))
    && (Enqueuing(l') ==> Enqueuing(l))
    && (!Enqueuing(l) ==> h'.claimed == h.claimed && h'.published == h.published && mem'.queue == mem.queue)
  }

  lemma LocalActs<T>(mem: Memory<T>, h: History<T>, t: Tid, l: Local<T>, spurious: bool)
    requires MayAct(mem, h, t, l, spurious)
    ensures var (mem', l') := Advance(mem, l, spurious);
            Acted(mem, h, t, l, mem', RecordStep(mem, h, t, l, spurious), l')
  {
    match l
    case EnqLoadWrite(_, _) => LoadWriteActs(mem, h, t, l);
    case EnqClaim(_, _) => ClaimActs(mem, h, t, l, spurious);
    case EnqStore(_, _) => StoreActs(mem, h, t, l);
    case EnqPublish(_, _) => PublishActs(mem, h, t, l, spurious);
    case DeqLoadLast(_, _) => LoadLastActs(mem, h, t, l);
    case DeqCopy(_, _) => CopyActs(mem, h, t, l);
    case DeqTake(_, _) => TakeActs(mem, h, t, l, spurious);
    case _ =>
  }

  /** The full test on a possibly stale read index still leaves room for the claim. */
  lemma LoadWriteActs<T>(mem: Memory<T>, h: History<T>, t: Tid, l: Local<T>)
    requires MayAct(mem, h, t, l, false) && l.EnqLoadWrite?
    ensures Acted(mem, h, t, l, mem, h, Advance(mem, l, false).1)
  {
    FullTest(mem, |h.claimed|, h.loaded[t]);
  }

  /** The full test compares slots; within one round it compares tickets. */
  lemma FullTest<T>(mem: Memory<T>, write: nat, loaded: nat)
    requires mem.Allocated() && GoodSize(mem.size)
    requires loaded <= write <= loaded + mem.size - 1
    ensures mem.Slot(Increment(write % WORD)) == mem.Slot(loaded % WORD) <==> write + 1 == loaded + mem.size
  {
    IncrementTicket(write);
    SlotOfTicket(mem, write + 1);
    SlotOfTicket(mem, loaded);
    OneRound(mem.size, write + 1, loaded);
  }

  lemma IncrementTicket(ticket: nat)
    ensures Increment(ticket % WORD) == (ticket + 1) % WORD
  {
  }

  lemma SlotOfTicket<T>(mem: Memory<T>, ticket: nat)
    requires mem.Allocated() && GoodSize(mem.size)
    ensures mem.Slot(ticket % WORD) == ticket % mem.size
  {
    IndexOfTicket(mem.size, ticket);
  }

  lemma OneRound(size: int, i: int, j: int)
    requires size > 0 && j < i <= j + size
    ensures i % size == j % size <==> i == j + size
  {
    ModPlus(i - size, size);
    SlotsDistinct(size, i - size, j);
  }

  lemma ModPlus(x: int, d: int)
    requires d > 0
    ensures (x + d) % d == x % d
  {
    assert d * (x / d + 1) == d * (x / d) + d;
    ModUnique(x + d, d, x / d + 1, x % d);
  }

  lemma ClaimActs<T>(mem: Memory<T>, h: History<T>, t: Tid, l: Local<T>, spurious: bool)
    requires MayAct(mem, h, t, l, spurious) && l.EnqClaim?
    ensures var (mem', l') := Advance(mem, l, spurious);
            Acted(mem, h, t, l, mem', RecordStep(mem, h, t, l, spurious), l')
  {
    IncrementTicket(|h.claimed|);
    var h' := RecordStep(mem, h, t, l, spurious);
    if h' != h {
      assert |h'.claimed| == h.published + 1;
      assert h'.claimed[h.published] == l.value;
    }
  }

  /** Storing into the claimed slot overwrites no element still owed to a consumer. */
  lemma StoreActs<T>(mem: Memory<T>, h: History<T>, t: Tid, l: Local<T>)
    requires MayAct(mem, h, t, l, false) && l.EnqStore?
    ensures var (mem', l') := Advance(mem, l, false); Acted(mem, h, t, l, mem', h, l')
  {
    SlotOfTicket(mem, h.published);
    forall i | |h.taken| <= i < h.published ensures i % mem.size != h.published % mem.size {
      SlotsDistinct(mem.size, i, h.published);
    }
  }

  lemma PublishActs<T>(mem: Memory<T>, h: History<T>, t: Tid, l: Local<T>, spurious: bool)
    requires MayAct(mem, h, t, l, spurious) && l.EnqPublish?
    ensures var (mem', l') := Advance(mem, l, spurious);
            Acted(mem, h, t, l, mem', RecordStep(mem, h, t, l, spurious), l')
  {
    IncrementTicket(h.published);
  }

  /** If the read index is still current, passing the empty test means something is there. */
  lemma LoadLastActs<T>(mem: Memory<T>, h: History<T>, t: Tid, l: Local<T>)
    requires MayAct(mem, h, t, l, false) && l.DeqLoadLast?
    ensures Acted(mem, h, t, l, mem, h, Advance(mem, l, false).1)
  {
    SlotOfTicket(mem, h.published);
    SlotOfTicket(mem, h.loaded[t]);
  }

  lemma CopyActs<T>(mem: Memory<T>, h: History<T>, t: Tid, l: Local<T>)
    requires MayAct(mem, h, t, l, false) && l.DeqCopy?
    ensures Acted(mem, h, t, l, mem, h, Advance(mem, l, false).1)
  {
    SlotOfTicket(mem, h.loaded[t]);
  }

  /** A successful compare-and-swap proves that the copied element was the oldest one. */
  lemma TakeActs<T>(mem: Memory<T>, h: History<T>, t: Tid, l: Local<T>, spurious: bool)
    requires MayAct(mem, h, t, l, spurious) && l.DeqTake?
    ensures var (mem', l') := Advance(mem, l, spurious);
            Acted(mem, h, t, l, mem', RecordStep(mem, h, t, l, spurious), l')
  {
    if mem.readIdx == l.read && !spurious {
      SameTicket(h.loaded[t], |h.taken|);
      IncrementTicket(|h.taken|);
      assert h.taken + [l.data] <= h.claimed;
    }
  }

  lemma SameTicket(i: nat, j: nat)
    requires i <= j < i + WORD && i % WORD == j % WORD
    ensures i == j
  {
    SlotsDistinct(WORD, i, j);
  }

  /** Every atomic step of every thread keeps the invariant. */
  lemma SoloExec<T>(x: Traced<T>, a: Action<T>, p: Tid)
    requires Solo(x, p) && AbaFree(x, a)
    ensures Solo(ExecTraced(x, a), p)
  {
    if Enabled(x.m, a) && a.Step? {
      var mem, h, l := x.m.mem, x.h, x.m.threads[a.tid];
      LocalActs(mem, h, a.tid, l, a.spurious);
      var (mem', l') := Advance(mem, l, a.spurious);
      var h' := RecordStep(mem, h, a.tid, l, a.spurious);
      SoloThreads(x, a.tid, p, mem', h', l');
    }
  }

  /** The acting thread did its part; the others are undisturbed. */
  lemma SoloThreads<T>(x: Traced<T>, t: Tid, p: Tid, mem': Memory<T>, h': History<T>, l': Local<T>)
    requires Solo(x, p) && t in x.m.threads
    requires Acted(x.m.mem, x.h, t, x.m.threads[t], mem', h', l')
    requires forall u | u in x.h.loaded && u != t :: u in h'.loaded && h'.loaded[u] == x.h.loaded[u]
    ensures Solo(Traced(x.m.(mem := mem', threads := x.m.threads[t := l']), h'), p)
  {
    forall u | u in x.m.threads && u != t ensures LocalOk(mem', h', u, x.m.threads[u]) {
      OthersOk(x.m.mem, x.h, mem', h', u, x.m.threads[u]);
    }
  }

  // ---------------------------------------------------------------- whole runs

  lemma {:induction false} SoloRun<T>(x: Traced<T>, schedule: seq<Action<T>>, p: Tid)
    requires Solo(x, p) && AbaFreeRun(x, schedule)
    ensures Solo(RunTraced(x, schedule), p)
  {
    if schedule != [] {
      var n := |schedule| - 1;
      SoloRun(x, schedule[..n], p);
      SoloExec(RunTraced(x, schedule[..n]), schedule[n], p);
    }
  }

  /** First in, first out over every interleaving, with spurious failures, from construction:
      the values taken are exactly the first claimed ones, all of them already published; no
      more than size - 1 elements are ever outstanding; and each outstanding published
      element is still in the slot of its ticket, across the 2^32 wrap of the indices. */
  lemma FifoRun<T>(size: Word, slots: seq<T>, p: Tid, enqueuers: set<Tid>, dequeuers: set<Tid>,
                   schedule: seq<Action<T>>)
    requires GoodSize(size) && |slots| == size && enqueuers <= {p}
    requires AbaFreeRun(Begin(Constructed(size, slots, enqueuers, dequeuers)), schedule)
    ensures FirstInFirstOut(RunTraced(Begin(Constructed(size, slots, enqueuers, dequeuers)), schedule), size)
  {
    var x := Begin(Constructed(size, slots, enqueuers, dequeuers));
    SoloBegin(size, slots, p, enqueuers, dequeuers);
    FifoRunFrom(x, p, schedule);
  }

  lemma FifoRunFrom<T>(x: Traced<T>, p: Tid, schedule: seq<Action<T>>)
    requires Solo(x, p) && AbaFreeRun(x, schedule)
    ensures FirstInFirstOut(RunTraced(x, schedule), x.m.mem.size)
  {
    SoloRun(x, schedule, p);
    SizeKept(x, schedule);
  }

  lemma {:induction false} SizeKept<T>(x: Traced<T>, schedule: seq<Action<T>>)
    requires x.m.mem.Allocated()
    ensures RunTraced(x, schedule).m.mem.size == x.m.mem.size
  {
  }

  ghost predicate FirstInFirstOut<T>(x: Traced<T>, size: Word) {
    && x.m.mem.Allocated() && x.m.mem.size == size
    && x.h.taken <= x.h.claimed
    && Window(x.h, size)
    && Indices(x.m.mem, x.h)
    && SlotsHold(x.m.mem, x.h)
  }

  // ---------------------------------------------------------------- a single consumer

  /** With one consumer the read index never moves between its load and its swap. */
  ghost predicate Fresh<T>(x: Traced<T>, c: Tid) {
    && x.m.dequeuers <= {c}
    && forall t | t in x.m.threads ::
         var l := x.m.threads[t];
         && (Dequeuing(l) ==> t == c)
         && (l.DeqLoadLast? || l.DeqCopy? || l.DeqTake? ==> t in x.h.loaded && x.h.loaded[t] == |x.h.taken|)
  }

  predicate Dequeuing<T>(l: Local<T>) {
    l.DeqLoadRead? || l.DeqLoadLast? || l.DeqCopy? || l.DeqTake? || l.DeqDiscount? || l.DeqReturn?
  }

  lemma FreshExec<T>(x: Traced<T>, a: Action<T>, c: Tid)
    requires x.m.mem.Allocated() && Fresh(x, c)
    ensures AbaFree(x, a)
    ensures Fresh(ExecTraced(x, a), c)
  {
  }

  lemma {:induction false} FreshRun<T>(x: Traced<T>, schedule: seq<Action<T>>, c: Tid)
    requires x.m.mem.Allocated() && Fresh(x, c)
    ensures AbaFreeRun(x, schedule)
    ensures Fresh(RunTraced(x, schedule), c)
  {
    if schedule != [] {
      FreshRun(x, schedule[..|schedule| - 1], c);
      FreshExec(RunTraced(x, schedule[..|schedule| - 1]), schedule[|schedule| - 1], c);
    }
  }

  /** So the wrap hypothesis of the FIFO theorem is met by every run of one consumer. */
  lemma OneConsumerAbaFree<T>(size: Word, slots: seq<T>, enqueuers: set<Tid>, dequeuers: set<Tid>, c: Tid,
                              schedule: seq<Action<T>>)
    requires |slots| == size > 0 && dequeuers <= {c}
    ensures AbaFreeRun(Begin(Constructed(size, slots, enqueuers, dequeuers)), schedule)
  {
    FreshRun(Begin(Constructed(size, slots, enqueuers, dequeuers)), schedule, c);
  }

  // ---------------------------------------------------------------- short runs

  lemma TakenGrows<T>(x: Traced<T>, a: Action<T>)
    requires x.m.mem.Allocated()
    ensures |x.h.taken| <= |ExecTraced(x, a).h.taken| <= |x.h.taken| + 1
  {
  }

  /** It is also met by every run that takes fewer than 2^32 elements. */
  lemma {:induction false} FewTakesAbaFree<T>(x: Traced<T>, schedule: seq<Action<T>>)
    requires x.m.mem.Allocated() && |RunTraced(x, schedule).h.taken| < WORD
    ensures AbaFreeRun(x, schedule)
  {
    if schedule != [] {
      var n := |schedule| - 1;
      TakenGrows(RunTraced(x, schedule[..n]), schedule[n]);
      FewTakesAbaFree(x, schedule[..n]);
    }
  }

  lemma {:induction false} TakenByLength<T>(x: Traced<T>, schedule: seq<Action<T>>)
    requires x.m.mem.Allocated()
    ensures |RunTraced(x, schedule).h.taken| <= |x.h.taken| + |schedule|
  {
    if schedule != [] {
      var n := |schedule| - 1;
      TakenByLength(x, schedule[..n]);
      TakenGrows(RunTraced(x, schedule[..n]), schedule[n]);
    }
  }

  /** In particular by every run of fewer than 2^32 steps. */
  lemma ShortRunAbaFree<T>(size: Word, slots: seq<T>, enqueuers: set<Tid>, dequeuers: set<Tid>,
                           schedule: seq<Action<T>>)
    requires |slots| == size > 0 && |schedule| < WORD
    ensures AbaFreeRun(Begin(Constructed(size, slots, enqueuers, dequeuers)), schedule)
  {
    TakenByLength(Begin(Constructed(size, slots, enqueuers, dequeuers)), schedule);
    FewTakesAbaFree(Begin(Constructed(size, slots, enqueuers, dequeuers)), schedule);
  }
}
