/** Bookkeeping that holds with any number of producers and consumers, whatever they do to
    each other. It speaks of machine words only. */
module CasCounting {
  import opened Bits
  import opened CasQueue

  predicate Unpublished<T>(l: Local<T>) { l.EnqStore? || l.EnqPublish? }
  predicate Uncounted<T>(l: Local<T>) { l.EnqCount? }
  predicate Undiscounted<T>(l: Local<T>) { l.DeqDiscount? }

  ghost function Holders<T>(threads: map<Tid, Local<T>>, p: Local<T> -> bool): set<Tid> {
    set t | t in threads && p(threads[t])
  }

  ghost function Tally<T>(threads: map<Tid, Local<T>>, p: Local<T> -> bool): nat {
    |Holders(threads, p)|
  }

  function One(b: bool): nat {
    if b then 1 else 0
  }

  lemma TallyUpdate<T>(threads: map<Tid, Local<T>>, t: Tid, l: Local<T>, p: Local<T> -> bool)
    requires t in threads
    ensures Tally(threads[t := l], p) == Tally(threads, p) - One(p(threads[t])) + One(p(l))
  {
    var rest := Holders(threads, p) - {t};
    assert Holders(threads, p) == rest + (if p(threads[t]) then {t} else {});
    assert Holders(threads[t := l], p) == rest + (if p(l) then {t} else {});
  }

  lemma TallyZero<T>(threads: map<Tid, Local<T>>, p: Local<T> -> bool)
    requires forall t | t in threads :: !p(threads[t])
    ensures Tally(threads, p) == 0
  {
    assert Holders(threads, p) == {};
  }

  ghost function WriteGap<T>(m: Machine<T>): int {
    m.mem.writeIdx - m.mem.lastWriteIdx - Tally(m.threads, Unpublished)
  }

  ghost function LengthGap<T>(m: Machine<T>): int {
    m.mem.lastWriteIdx - m.mem.readIdx - m.mem.length
    - Tally(m.threads, Uncounted) + Tally(m.threads, Undiscounted)
  }

  /** `_write_idx` is ahead of `_last_write_idx` by exactly the claims not yet published,
      and `_length` is off from the published-minus-taken difference by exactly the updates
      still owed. */
  ghost predicate Balanced<T>(m: Machine<T>) {
    WriteGap(m) % WORD == 0 && LengthGap(m) % WORD == 0
  }

  lemma BalancedConstructed<T>(size: Word, slots: seq<T>, enqueuers: set<Tid>, dequeuers: set<Tid>)
    ensures Balanced(Constructed(size, slots, enqueuers, dequeuers))
  {
    var m := Constructed(size, slots, enqueuers, dequeuers);
    TallyZero(m.threads, Unpublished);
    TallyZero(m.threads, Uncounted);
    TallyZero(m.threads, Undiscounted);
  }

  lemma BalancedExec<T>(m: Machine<T>, a: Action<T>)
    requires m.mem.Allocated() && Balanced(m)
    ensures Balanced(Exec(m, a))
  {
    var m' := Exec(m, a);
    if Enabled(m, a) {
      GapsMove(m, a);
      ModSum(WriteGap(m), WriteGap(m') - WriteGap(m));
      ModSum(LengthGap(m), LengthGap(m') - LengthGap(m));
    }
  }

  lemma GapsMove<T>(m: Machine<T>, a: Action<T>)
    requires m.mem.Allocated() && Enabled(m, a)
    ensures var m' := Exec(m, a);
      (WriteGap(m') - WriteGap(m)) % WORD == 0 && (LengthGap(m') - LengthGap(m)) % WORD == 0
  {
    var m' := Exec(m, a);
    var l, l' := m.threads[a.tid], m'.threads[a.tid];
    TallyUpdate(m.threads, a.tid, l', Unpublished);
    TallyUpdate(m.threads, a.tid, l', Uncounted);
    TallyUpdate(m.threads, a.tid, l', Undiscounted);
    if a.Step? {
      AdvanceBalance(m.mem, l, a.spurious);
      assert WriteGap(m') - WriteGap(m) == WriteDue(m'.mem, l') - WriteDue(m.mem, l);
      assert LengthGap(m') - LengthGap(m) == LengthDue(m'.mem, l') - LengthDue(m.mem, l);
    } else {
      assert WriteGap(m') == WriteGap(m) && LengthGap(m') == LengthGap(m);
    }
  }

  lemma ModSum(x: int, y: int)
    requires x % WORD == 0 && y % WORD == 0
    ensures (x + y) % WORD == 0
  {
  }

  ghost function WriteDue<T>(mem: Memory<T>, l: Local<T>): int {
    mem.writeIdx - mem.lastWriteIdx - One(Unpublished(l))
  }

  ghost function LengthDue<T>(mem: Memory<T>, l: Local<T>): int {
    mem.lastWriteIdx - mem.readIdx - mem.length - One(Uncounted(l)) + One(Undiscounted(l))
  }

  /** One step changes each of the two differences exactly as it changes what is owed. */
  lemma AdvanceBalance<T>(mem: Memory<T>, l: Local<T>, spurious: bool)
    requires mem.Allocated()
    ensures var (mem', l') := Advance(mem, l, spurious);
      && (WriteDue(mem', l') - WriteDue(mem, l)) % WORD == 0
      && (LengthDue(mem', l') - LengthDue(mem, l)) % WORD == 0
  {
    match l
    case EnqClaim(_, write) => Wraps(write);
    case EnqPublish(_, write) => Wraps(write);
    case EnqCount => Wraps(mem.length);
    case DeqTake(_, read) => Wraps(read);
    case DeqDiscount(_) => Wraps(mem.length);
    case _ =>
  }

  lemma Wraps(x: Word)
    ensures Increment(x) == x + 1 || Increment(x) == x + 1 - WORD
    ensures Decrement(x) == x - 1 || Decrement(x) == x - 1 + WORD
  {
  }

  /** Conservation over every run of every set of threads. */
  lemma {:induction false} BalancedRun<T>(m: Machine<T>, schedule: seq<Action<T>>)
    requires m.mem.Allocated() && Balanced(m)
    ensures Balanced(Run(m, schedule))
  {
    if schedule != [] {
      BalancedRun(m, schedule[..|schedule| - 1]);
      BalancedExec(Run(m, schedule[..|schedule| - 1]), schedule[|schedule| - 1]);
    }
  }

  /** What `size()` answers in any state of any run: what was published and not taken, less the
      enqueues that have yet to count themselves, plus the dequeues that have yet to. */
  lemma SizeAnytime<T>(size: Word, slots: seq<T>, enqueuers: set<Tid>, dequeuers: set<Tid>, schedule: seq<Action<T>>)
    requires |slots| == size > 0
    ensures var m := Run(Constructed(size, slots, enqueuers, dequeuers), schedule);
      var uncounted := |set t | t in m.threads && m.threads[t].EnqCount?|;
      var undiscounted := |set t | t in m.threads && m.threads[t].DeqDiscount?|;
      && Size(m) == (m.mem.lastWriteIdx - m.mem.readIdx - uncounted + undiscounted) % WORD
      && (Empty(m) <==> (m.mem.lastWriteIdx - m.mem.readIdx - uncounted + undiscounted) % WORD == 0)
  {
    var m := Run(Constructed(size, slots, enqueuers, dequeuers), schedule);
    BalancedConstructed(size, slots, enqueuers, dequeuers);
    BalancedRun(Constructed(size, slots, enqueuers, dequeuers), schedule);
    assert Holders(m.threads, Uncounted) == set t | t in m.threads && m.threads[t].EnqCount?;
    assert Holders(m.threads, Undiscounted) == set t | t in m.threads && m.threads[t].DeqDiscount?;
    LengthIs(m);
  }

  lemma LengthIs<T>(m: Machine<T>)
    requires Balanced(m)
    ensures m.mem.length
         == (m.mem.lastWriteIdx - m.mem.readIdx - Tally(m.threads, Uncounted) + Tally(m.threads, Undiscounted)) % WORD
  {
  }

  ghost predicate Quiescent<T>(m: Machine<T>) {
    forall t | t in m.threads :: !Unpublished(m.threads[t]) && !Uncounted(m.threads[t]) && !Undiscounted(m.threads[t])
  }

  /** When no thread is between claim and publish, publish and count, or take and discount,
      `size()` is the index distance and nothing claimed is left unpublished. */
  lemma QuiescentSize<T>(size: Word, slots: seq<T>, enqueuers: set<Tid>, dequeuers: set<Tid>,
                         schedule: seq<Action<T>>)
    requires |slots| == size > 0
    ensures var m := Run(Constructed(size, slots, enqueuers, dequeuers), schedule);
            Quiescent(m) ==>
              && m.mem.writeIdx == m.mem.lastWriteIdx
              && Size(m) == (m.mem.writeIdx - m.mem.readIdx) % WORD
  {
    var m0 := Constructed(size, slots, enqueuers, dequeuers);
    BalancedConstructed(size, slots, enqueuers, dequeuers);
    BalancedRun(m0, schedule);
    var m := Run(m0, schedule);
    if Quiescent(m) {
      TallyZero(m.threads, Unpublished);
      TallyZero(m.threads, Uncounted);
      TallyZero(m.threads, Undiscounted);
    }
  }
}
