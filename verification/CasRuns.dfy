/** Building schedules: uninterrupted steps of one thread, whole calls, and calls one after the
    other, with the history they leave. */
module CasRuns {
  import opened Bits
  import opened PowerOfTwo
  import opened CasQueue
  import opened CasFifo

  function Start<T>(size: Word, slots: seq<T>, enqueuers: set<Tid>, dequeuers: set<Tid>): Traced<T> {
    Begin(Constructed(size, slots, enqueuers, dequeuers))
  }

  // ---------------------------------------------------------------- one thread alone

  /** What a thread running alone changes. */
  datatype View<T> = View(mem: Memory<T>, h: History<T>, l: Local<T>)

  function Next<T>(v: View<T>, t: Tid): (r: View<T>)
    requires v.mem.Allocated()
    ensures r.mem.Allocated() && r.mem.size == v.mem.size
  {
    var (mem, l) := Advance(v.mem, v.l, false);
    View(mem, RecordStep(v.mem, v.h, t, v.l, false), l)
  }

  /** `n` uninterrupted steps. */
  function Ahead<T>(v: View<T>, t: Tid, n: nat): (r: View<T>)
    requires v.mem.Allocated()
    ensures r.mem.Allocated() && r.mem.size == v.mem.size
    decreases n
  {
    if n == 0 then v else Ahead(Next(v, t), t, n - 1)
  }

  lemma {:induction false} AheadSnoc<T>(v: View<T>, t: Tid, n: nat)
    requires v.mem.Allocated()
    ensures Ahead(v, t, n + 1) == Next(Ahead(v, t, n), t)
    decreases n
  {
    if n == 0 {
      assert Ahead(Next(v, t), t, 0) == Next(v, t);
    } else {
      AheadSnoc(Next(v, t), t, n - 1);
    }
  }

  function Look<T>(x: Traced<T>, l: Local<T>): View<T> {
    View(x.m.mem, x.h, l)
  }

  /** The run with what thread `t` alone has changed. */
  function With<T>(x: Traced<T>, t: Tid, v: View<T>): Traced<T> {
    Traced(x.m.(mem := v.mem, threads := x.m.threads[t := v.l]), v.h)
  }

  // ---------------------------------------------------------------- schedules

  function Steps<T>(t: Tid, n: nat): (s: seq<Action<T>>)
    ensures |s| == n
  {
    seq(n, i => Step(t, false))
  }

  lemma {:induction false} RunConcat<T>(x: Traced<T>, s1: seq<Action<T>>, s2: seq<Action<T>>)
    requires x.m.mem.Allocated()
    ensures RunTraced(x, s1 + s2) == RunTraced(RunTraced(x, s1), s2)
    decreases |s2|
  {
    if s2 == [] {
      assert s1 + s2 == s1;
    } else {
      var n := |s2| - 1;
      RunConcat(x, s1, s2[..n]);
      assert (s1 + s2)[..|s1 + s2| - 1] == s1 + s2[..n];
    }
  }

  lemma RunOne<T>(x: Traced<T>, a: Action<T>)
    requires x.m.mem.Allocated()
    ensures RunTraced(x, [a]) == ExecTraced(x, a)
  {
    assert [a][..0] == [];
  }

  lemma {:induction false} AloneRun<T>(x: Traced<T>, t: Tid, n: nat)
    requires x.m.mem.Allocated() && t in x.m.threads
    ensures RunTraced(x, Steps(t, n)) == With(x, t, Ahead(Look(x, x.m.threads[t]), t, n))
    decreases n
  {
    if n == 0 {
      assert x.m.threads[t := x.m.threads[t]] == x.m.threads;
    } else {
      var x' := ExecTraced(x, Step(t, false));
      RunOne(x, Step(t, false));
      RunConcat(x, [Step(t, false)], Steps(t, n - 1));
      assert Steps<T>(t, n) == [Step(t, false)] + Steps(t, n - 1);
      AloneRun(x', t, n - 1);
    }
  }

  /** Steps of one thread, whose outcome is known. */
  lemma StepsLead<T>(x: Traced<T>, t: Tid, from: View<T>, n: nat, to: View<T>) returns (s: seq<Action<T>>, y: Traced<T>)
    requires x.m.mem.Allocated() && t in x.m.threads && from == Look(x, x.m.threads[t]) && to == Ahead(from, t, n)
    ensures s == Steps(t, n) && y == RunTraced(x, s) && y == With(x, t, to)
  {
    s := Steps(t, n);
    AloneRun(x, t, n);
    y := RunTraced(x, s);
  }

  /** Where a call starts. */
  function First<T>(call: Action<T>): Local<T>
    requires !call.Step?
  {
    if call.CallEnqueue? then EnqLoadRead(call.value) else DeqLoadRead(call.data)
  }

  /** A call of a thread followed by `n` uninterrupted steps of it. */
  function Calling<T>(call: Action<T>, n: nat): seq<Action<T>> {
    [call] + Steps(call.tid, n)
  }

  lemma CallRun<T>(x: Traced<T>, call: Action<T>, n: nat)
    requires x.m.mem.Allocated() && Enabled(x.m, call) && !call.Step?
    ensures RunTraced(x, Calling(call, n)) == With(x, call.tid, Ahead(Look(x, First(call)), call.tid, n))
  {
    var y := ExecTraced(x, call);
    RunOne(x, call);
    RunConcat(x, [call], Steps(call.tid, n));
    AloneRun(y, call.tid, n);
    var v := Ahead(Look(x, First(call)), call.tid, n);
    assert y.m.threads[call.tid := v.l] == x.m.threads[call.tid := v.l];
  }

  // ---------------------------------------------------------------- whole calls alone

  function Enqueued<T>(mem: Memory<T>, v: T): Memory<T>
    requires mem.Allocated()
  {
    mem.(queue := mem.queue[mem.Slot(mem.writeIdx) := v],
         writeIdx := Increment(mem.writeIdx),
         lastWriteIdx := Increment(mem.writeIdx),
         length := Increment(mem.length))
  }

  function Dequeued<T>(mem: Memory<T>): Memory<T> {
    mem.(readIdx := Increment(mem.readIdx), length := Decrement(mem.length))
  }

  /** From the second load on, an enqueue whose full test lets it through. */
  lemma ClaimAlone<T>(v: View<T>, t: Tid)
    requires v.mem.Allocated() && v.l.EnqLoadWrite? && v.mem.writeIdx == v.mem.lastWriteIdx
    requires v.mem.Slot(Increment(v.mem.writeIdx)) != v.mem.Slot(v.l.read)
    ensures Ahead(v, t, 5) == View(Enqueued(v.mem, v.l.value),
        v.h.(claimed := v.h.claimed + [v.l.value], published := v.h.published + 1), EnqReturn(true))
    ensures Ahead(v, t, 6) == Ahead(v, t, 5).(l := Idle)
  {
    var w, value := v.mem.writeIdx, v.l.value;
    var claimed := View(v.mem.(writeIdx := Increment(w)), v.h.(claimed := v.h.claimed + [value]), EnqStore(value, w));
    var stored := View(claimed.mem.(queue := v.mem.queue[v.mem.Slot(w) := value]), claimed.h, EnqPublish(value, w));
    var published := View(stored.mem.(lastWriteIdx := Increment(w)), stored.h.(published := v.h.published + 1),
      EnqCount);
    var counted := View(published.mem.(length := Increment(v.mem.length)), published.h, EnqReturn(true));
    calc {
      Ahead(v, t, 5);
      Ahead(v.(l := EnqClaim(value, w)), t, 4);
      Ahead(claimed, t, 3);
      Ahead(stored, t, 2);
      Ahead(published, t, 1);
      Ahead(counted, t, 0);
    }
    AheadSnoc(v, t, 5);
  }

  /** The same when another claim is still unpublished: the failed swap leaves the index it
      observes, and that is the one published. */
  lemma ClaimAstray<T>(v: View<T>, t: Tid)
    requires v.mem.Allocated() && v.l.EnqLoadWrite? && v.mem.writeIdx != v.mem.lastWriteIdx
    requires v.mem.Slot(Increment(v.mem.writeIdx)) != v.mem.Slot(v.l.read)
    ensures Ahead(v, t, 7) == View(
        v.mem.(queue := v.mem.queue[v.mem.Slot(v.mem.writeIdx) := v.l.value],
               writeIdx := Increment(v.mem.writeIdx),
               lastWriteIdx := Increment(v.mem.lastWriteIdx),
               length := Increment(v.mem.length)),
        v.h.(claimed := v.h.claimed + [v.l.value], published := v.h.published + 1), Idle)
  {
    var w, last, value := v.mem.writeIdx, v.mem.lastWriteIdx, v.l.value;
    var claimed := View(v.mem.(writeIdx := Increment(w)), v.h.(claimed := v.h.claimed + [value]), EnqStore(value, w));
    var stored := View(claimed.mem.(queue := v.mem.queue[v.mem.Slot(w) := value]), claimed.h, EnqPublish(value, w));
    var failed := stored.(l := EnqPublish(value, last));
    var published := View(stored.mem.(lastWriteIdx := Increment(last)), stored.h.(published := v.h.published + 1),
      EnqCount);
    var counted := View(published.mem.(length := Increment(v.mem.length)), published.h, EnqReturn(true));
    calc {
      Ahead(v, t, 7);
      Ahead(v.(l := EnqClaim(value, w)), t, 6);
      Ahead(claimed, t, 5);
      Ahead(stored, t, 4);
      Ahead(failed, t, 3);
      Ahead(published, t, 2);
      Ahead(counted, t, 1);
      Ahead(counted.(l := Idle), t, 0);
    }
  }

  lemma EnqueueAlone<T>(v: View<T>, t: Tid)
    requires v.mem.Allocated() && v.l.EnqLoadRead? && v.mem.writeIdx == v.mem.lastWriteIdx
    requires v.mem.Slot(Increment(v.mem.writeIdx)) != v.mem.Slot(v.mem.readIdx)
    ensures Ahead(v, t, 7) == View(Enqueued(v.mem, v.l.value),
        v.h.(claimed := v.h.claimed + [v.l.value], published := v.h.published + 1,
             loaded := v.h.loaded[t := |v.h.taken|]), Idle)
  {
    ClaimAlone(Next(v, t), t);
  }

  lemma DequeueAlone<T>(v: View<T>, t: Tid)
    requires v.mem.Allocated() && v.l.DeqLoadRead? && v.mem.Slot(v.mem.lastWriteIdx) != v.mem.Slot(v.mem.readIdx)
    ensures Ahead(v, t, 6) == View(Dequeued(v.mem),
        v.h.(taken := v.h.taken + [v.mem.queue[v.mem.Slot(v.mem.readIdx)]],
             loaded := v.h.loaded[t := |v.h.taken|]), Idle)
  {
    TakeAlone(Next(Next(v, t), t), t);
  }

  /** A dequeue whose test finds the two indices in the same slot. */
  lemma EmptyAlone<T>(from: View<T>, c: Tid)
    requires from.mem.Allocated() && from.l.DeqLoadRead?
      && from.mem.Slot(from.mem.lastWriteIdx) == from.mem.Slot(from.mem.readIdx)
    ensures Ahead(from, c, 2)
         == View(from.mem, from.h.(loaded := from.h.loaded[c := |from.h.taken|]), DeqReturn(from.l.data, false))
  {
    var looking := Next(from, c);
    calc {
      Ahead(from, c, 2);
      Ahead(looking, c, 1);
      Ahead(looking.(l := DeqReturn(from.l.data, false)), c, 0);
    }
  }

  /** From the copy of the slot on, a dequeue whose read index is current. */
  lemma TakeAlone<T>(v: View<T>, t: Tid)
    requires v.mem.Allocated() && v.l.DeqCopy? && v.l.read == v.mem.readIdx
    ensures Ahead(v, t, 4)
         == View(Dequeued(v.mem), v.h.(taken := v.h.taken + [v.mem.queue[v.mem.Slot(v.l.read)]]), Idle)
  {
    var r := v.l.read;
    var head := v.mem.queue[v.mem.Slot(r)];
    var taken := View(v.mem.(readIdx := Increment(r)), v.h.(taken := v.h.taken + [head]), DeqDiscount(head));
    var done := taken.(mem := Dequeued(v.mem), l := DeqReturn(head, true));
    calc {
      Ahead(v, t, 4);
      Ahead(v.(l := DeqTake(head, r)), t, 3);
      Ahead(taken, t, 2);
      Ahead(done, t, 1);
      Ahead(done.(l := Idle), t, 0);
    }
  }

  // ---------------------------------------------------------------- in tickets

  /** `r` elements were taken, and the index that consumers see says that `w` were published. */
  ghost predicate Readable<T>(x: Traced<T>, r: nat, w: nat) {
    && x.m.mem.Allocated() && GoodSize(x.m.mem.size)
    && x.m.mem.readIdx == r % WORD && x.m.mem.lastWriteIdx == w % WORD
    && |x.h.taken| == r && x.h.published == w
  }

  /** Besides, nothing is in flight. */
  ghost predicate At<T>(x: Traced<T>, r: nat, w: nat) {
    Readable(x, r, w) && x.m.mem.writeIdx == w % WORD && |x.h.claimed| == w
  }

  /** Ticket `w` is ahead of `r` by less than two rounds, but not by one. */
  predicate Apart(r: nat, w: nat, size: nat) { r < w < r + 2 * size && w != r + size }

  lemma ApartInSlots(r: nat, w: nat, size: nat)
    requires size > 0 && Apart(r, w, size)
    ensures w % size != r % size
  {
    if w < r + size {
      SlotsDistinct(size, w, r);
    } else {
      OneRound(size, r + size, r);
      SlotsDistinct(size, w, r + size);
    }
  }

  /** Only memory and history differ. */
  ghost predicate SameThreads<T>(x: Traced<T>, y: Traced<T>) {
    y.m == x.m.(mem := y.m.mem) && y.m.mem.size == x.m.mem.size
  }

  /** A whole enqueue by an idle thread. */
  lemma Put<T>(x: Traced<T>, r: nat, w: nat, t: Tid, v: T) returns (s: seq<Action<T>>, y: Traced<T>)
    requires At(x, r, w) && Enabled(x.m, CallEnqueue(t, v))
    requires Apart(r, w + 1, x.m.mem.size)
    ensures s == Calling(CallEnqueue(t, v), 7) && y == RunTraced(x, s)
    ensures At(y, r, w + 1) && SameThreads(x, y)
    ensures y.m.mem.queue == x.m.mem.queue[w % x.m.mem.size := v]
    ensures y.h == x.h.(claimed := x.h.claimed + [v], published := w + 1, loaded := x.h.loaded[t := r])
  {
    ApartInSlots(r, w + 1, x.m.mem.size);
    SlotOfTicket(x.m.mem, w);
    SlotOfTicket(x.m.mem, w + 1);
    SlotOfTicket(x.m.mem, r);
    IncrementTicket(w);
    s := Calling(CallEnqueue(t, v), 7);
    CallRun(x, CallEnqueue(t, v), 7);
    EnqueueAlone(Look(x, EnqLoadRead(v)), t);
    assert x.m.threads[t := Idle] == x.m.threads;
    y := RunTraced(x, s);
  }

  /** A whole dequeue by an idle thread. */
  lemma Get<T>(x: Traced<T>, r: nat, w: nat, t: Tid, d: T) returns (s: seq<Action<T>>, y: Traced<T>)
    requires Readable(x, r, w) && Enabled(x.m, CallDequeue(t, d))
    requires Apart(r, w, x.m.mem.size)
    ensures s == Calling(CallDequeue(t, d), 6) && y == RunTraced(x, s)
    ensures Readable(y, r + 1, w) && SameThreads(x, y) && y.m.mem == Dequeued(x.m.mem)
    ensures y.h == x.h.(taken := x.h.taken + [x.m.mem.queue[r % x.m.mem.size]], loaded := x.h.loaded[t := r])
  {
    ApartInSlots(r, w, x.m.mem.size);
    SlotOfTicket(x.m.mem, w);
    SlotOfTicket(x.m.mem, r);
    IncrementTicket(r);
    s := Calling(CallDequeue(t, d), 6);
    CallRun(x, CallDequeue(t, d), 6);
    DequeueAlone(Look(x, DeqLoadRead(d)), t);
    assert x.m.threads[t := Idle] == x.m.threads;
    y := RunTraced(x, s);
  }

  /** A producer claims the slot of ticket `n` and gets no further. */
  lemma ClaimOnly<T>(x: Traced<T>, r: nat, w: nat, n: nat, q: Tid, v: T) returns (s: seq<Action<T>>, y: Traced<T>)
    requires Readable(x, r, w) && x.m.mem.writeIdx == n % WORD && Enabled(x.m, CallEnqueue(q, v))
    requires Apart(r, n + 1, x.m.mem.size)
    ensures y == RunTraced(x, s) && Readable(y, r, w) && y.m.mem == x.m.mem.(writeIdx := (n + 1) % WORD)
    ensures y.m == x.m.(mem := y.m.mem, threads := x.m.threads[q := EnqStore(v, n % WORD)])
    ensures y.h.claimed == x.h.claimed + [v] && y.h.taken == x.h.taken
  {
    ApartInSlots(r, n + 1, x.m.mem.size);
    SlotOfTicket(x.m.mem, n + 1);
    SlotOfTicket(x.m.mem, r);
    IncrementTicket(n);
    s := Calling(CallEnqueue(q, v), 3);
    CallRun(x, CallEnqueue(q, v), 3);
    var v0 := Look(x, EnqLoadRead(v));
    var h := x.h.(loaded := x.h.loaded[q := r]);
    calc {
      Ahead(v0, q, 3);
      Ahead(View(x.m.mem, h, EnqLoadWrite(v, x.m.mem.readIdx)), q, 2);
      Ahead(View(x.m.mem, h, EnqClaim(v, x.m.mem.writeIdx)), q, 1);
      Ahead(View(x.m.mem.(writeIdx := (n + 1) % WORD), h.(claimed := h.claimed + [v]), EnqStore(v, n % WORD)), q, 0);
    }
    y := With(x, q, Ahead(v0, q, 3));
  }

  lemma Then<T>(x: Traced<T>, s1: seq<Action<T>>, y: Traced<T>, s2: seq<Action<T>>, z: Traced<T>)
    requires x.m.mem.Allocated() && RunTraced(x, s1) == y && RunTraced(y, s2) == z
    ensures RunTraced(x, s1 + s2) == z
  {
    RunConcat(x, s1, s2);
  }

  /** `n` whole enqueues of the same value by the same thread, into a queue with room. */
  lemma {:induction false} Fill<T>(x: Traced<T>, r: nat, w: nat, t: Tid, v: T, n: nat)
    returns (s: seq<Action<T>>, y: Traced<T>)
    requires At(x, r, w) && Enabled(x.m, CallEnqueue(t, v)) && r <= w && w + n < r + x.m.mem.size
    ensures y == RunTraced(x, s) && At(y, r, w + n) && SameThreads(x, y)
    ensures y.h.taken == x.h.taken && y.h.claimed == x.h.claimed + seq(n, _ => v)
    ensures forall i | w + n <= i < x.m.mem.size :: y.m.mem.queue[i] == x.m.mem.queue[i]
    decreases n
  {
    if n == 0 {
      s, y := [], x;
      assert x.h.claimed + [] == x.h.claimed;
    } else {
      var s1, x1 := Put(x, r, w, t, v);
      KeptAbove(x.m.mem.queue, w, v);
      var s2;
      s2, y := Fill(x1, r, w + 1, t, v, n - 1);
      Then(x, s1, x1, s2, y);
      s := s1 + s2;
      Repeated(x.h.claimed, v, n);
    }
  }

  lemma KeptAbove<T>(cells: seq<T>, w: nat, v: T)
    requires cells != []
    ensures forall i | w < i < |cells| :: cells[w % |cells| := v][i] == cells[i]
  {
  }

  lemma Repeated<T>(s: seq<T>, v: T, n: nat)
    requires n > 0
    ensures (s + [v]) + seq(n - 1, _ => v) == s + seq(n, _ => v)
  {
  }

  /** What `n` slots hold, from the slot of ticket `r` on. */
  function Cells<T>(queue: seq<T>, r: nat, n: nat): (cells: seq<T>)
    requires queue != []
    ensures |cells| == n
    decreases n
  {
    if n == 0 then [] else [queue[r % |queue|]] + Cells(queue, r + 1, n - 1)
  }

  lemma {:induction false} CellsLast<T>(queue: seq<T>, r: nat, n: nat)
    requires n > 0 && r + n <= |queue|
    ensures Cells(queue, r, n)[n - 1] == queue[r + n - 1]
    decreases n
  {
    if n > 1 {
      CellsLast(queue, r + 1, n - 1);
    } else {
      ModUnique(r, |queue|, 0, r);
    }
  }

  /** `n` whole dequeues by the same thread: they take what the slots hold, in order. */
  lemma {:induction false} Drain<T>(x: Traced<T>, r: nat, w: nat, t: Tid, d: T, n: nat)
    returns (s: seq<Action<T>>, y: Traced<T>)
    requires Readable(x, r, w) && Enabled(x.m, CallDequeue(t, d)) && r + n <= w < r + x.m.mem.size
    ensures y == RunTraced(x, s) && Readable(y, r + n, w) && SameThreads(x, y)
    ensures y.h.claimed == x.h.claimed && y.h.taken == x.h.taken + Cells(x.m.mem.queue, r, n)
    decreases n
  {
    if n == 0 {
      s, y := [], x;
      assert x.h.taken + [] == x.h.taken;
    } else {
      var s1, x1 := Get(x, r, w, t, d);
      var s2;
      s2, y := Drain(x1, r + 1, w, t, d, n - 1);
      Then(x, s1, x1, s2, y);
      s := s1 + s2;
      Regroup(x.h.taken, [x.m.mem.queue[r % x.m.mem.size]], Cells(x.m.mem.queue, r + 1, n - 1));
    }
  }

  lemma Regroup<T>(a: seq<T>, b: seq<T>, c: seq<T>)
    ensures (a + b) + c == a + (b + c)
  {
  }

  // ---------------------------------------------------------------- threads to choose from

  lemma Cover(a: set<Tid>) returns (p: Tid)
    requires |a| <= 1
    ensures a <= {p}
  {
    if a == {} {
      p := 0;
    } else {
      p :| p in a;
      AtMostOne(a, p);
    }
  }

  lemma AtMostOne(a: set<Tid>, p: Tid)
    requires |a| <= 1 && p in a
    ensures a <= {p}
  {
    if q :| q in a && q != p {
      assert {p, q} <= a;
      SubsetSize({p, q}, a);
    }
  }

  lemma {:induction false} SubsetSize(a: set<Tid>, b: set<Tid>)
    requires a <= b
    ensures |a| <= |b|
  {
    assert b == a + (b - a);
  }

  lemma AnotherIn(a: set<Tid>, c: Tid) returns (p: Tid)
    requires |a| > 1
    ensures p in a && p != c
  {
    if a <= {c} {
      SubsetSize(a, {c});
    }
    p :| p in a && p != c;
  }
}
