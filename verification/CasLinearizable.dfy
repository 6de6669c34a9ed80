/** With one producer the lock-free queue is a linearizable bounded queue of size - 1
    elements: each call takes effect at one atomic step between its call and its return, and
    returns what the abstract queue answers there. A full answer is always exact. An empty
    answer is exact when there is also just one consumer; with more it was true at some moment
    of the call if the size is 2, and otherwise it can be wrong only after a whole round has
    been published. */
module CasLinearizable {
  import opened Bits
  import opened PowerOfTwo
  import opened BoundedFifo
  import opened CasQueue
  import opened CasCounting
  import opened CasFifo

  datatype Status<T> = Quiet | Pending(op: Op<T>) | Decided(resp: Resp<T>)

  /** Since a thread's last call: how many elements had been taken out when it began, and
      whether the queue has been empty. */
  datatype Since = Since(removed: nat, sawEmpty: bool)

  datatype Spec<T> = Spec(queue: seq<T>, removed: nat, since: map<Tid, Since>, status: map<Tid, Status<T>>)

  /** What an outside observer sees of a step. */
  datatype Event<T> = Silent | Call(tid: Tid, op: Op<T>) | Return(tid: Tid, resp: Resp<T>)

  /** When a dequeue may answer that nothing is there: only while that is so; or also if it was
      so at some moment since the call; or also if a whole round has been added beyond what had
      been taken out at the call. */
  datatype EmptyRule = AtOnce | WithinCall | WithinRound

  // ---------------------------------------------------------------- the specification

  predicate MayMiss(rule: EmptyRule, capacity: nat, added: nat, since: Since) {
    match rule
    case AtOnce => false
    case WithinCall => since.sawEmpty
    case WithinRound => added > since.removed + capacity
  }

  /** A pending call takes effect atomically. */
  ghost predicate Decides<T>(capacity: nat, rule: EmptyRule, s: Spec<T>, t: Tid, s': Spec<T>) {
    && t in s.status && s.status[t].Pending? && t in s.since
    && var (queue, resp) := Apply(s.queue, capacity, s.status[t].op);
       || (&& s'.queue == queue && s'.status == s.status[t := Decided(resp)]
           && s'.removed == s.removed + if resp.Got? then 1 else 0)
       || (&& s.status[t].op.Deq? && MayMiss(rule, capacity, s.removed + |s.queue|, s.since[t])
           && s'.queue == s.queue && s'.status == s.status[t := Decided(Nothing)] && s'.removed == s.removed)
  }

  /** What a step makes of the marks of all threads. */
  function Noted<T>(since: map<Tid, Since>, event: Event<T>, removed: nat, empty: bool): map<Tid, Since> {
    map t | t in since ::
      if event.Call? && event.tid == t then Since(removed, empty)
      else since[t].(sawEmpty := since[t].sawEmpty || empty)
  }

  ghost predicate SpecStep<T>(capacity: nat, rule: EmptyRule, s: Spec<T>, event: Event<T>, s': Spec<T>) {
    && s'.since == Noted(s.since, event, s'.removed, s'.queue == [])
    && match event
       case Call(t, op) =>
         && t in s.status && s.status[t].Quiet?
         && s' == s.(status := s.status[t := Pending(op)], since := s'.since)
       case Return(t, resp) =>
         && t in s.status && s.status[t] == Decided(resp)
         && s' == s.(status := s.status[t := Quiet], since := s'.since)
       case Silent => s' == s.(since := s'.since) || exists t :: Decides(capacity, rule, s, t, s')
  }

  ghost predicate SpecBegins<T>(s: Spec<T>) {
    && s.queue == [] && s.removed == 0
    && forall t | t in s.status :: s.status[t] == Quiet && t in s.since && s.since[t] == Since(0, true)
  }

  ghost predicate SpecRun<T>(capacity: nat, rule: EmptyRule, states: seq<Spec<T>>, events: seq<Event<T>>) {
    && |states| == |events| + 1
    && SpecBegins(states[0])
    && forall i | 0 <= i < |events| :: SpecStep(capacity, rule, states[i], events[i], states[i + 1])
  }

  ghost predicate Admits<T(!new)>(capacity: nat, rule: EmptyRule, events: seq<Event<T>>) {
    exists states :: SpecRun(capacity, rule, states, events)
  }

  lemma SpecRunExtends<T>(capacity: nat, rule: EmptyRule, states: seq<Spec<T>>, events: seq<Event<T>>,
                          event: Event<T>, s: Spec<T>)
    requires SpecRun(capacity, rule, states, events)
    requires SpecStep(capacity, rule, states[|events|], event, s)
    ensures SpecRun(capacity, rule, states + [s], events + [event])
  {
  }

  // ---------------------------------------------------------------- what the machine shows

  function EventOf<T>(m: Machine<T>, a: Action<T>): Event<T> {
    if !Enabled(m, a) then Silent
    else
      match a
      case CallEnqueue(t, v) => Call(t, Enq(v))
      case CallDequeue(t, _) => Call(t, Deq)
      case Step(t, _) =>
        match m.threads[t]
        case EnqReturn(ok) => Return(t, if ok then Accepted else Full)
        case DeqReturn(d, ok) => Return(t, if ok then Got(d) else Nothing)
        case _ => Silent
  }

  function Events<T>(m: Machine<T>, schedule: seq<Action<T>>): (events: seq<Event<T>>)
    requires m.mem.Allocated()
    ensures |events| == |schedule|
  {
    if schedule == [] then []
    else
      var n := |schedule| - 1;
      Events(m, schedule[..n]) + [EventOf(Run(m, schedule[..n]), schedule[n])]
  }

  // ---------------------------------------------------------------- abstraction

  /** A call that loaded a read index making the queue look full will answer so. */
  ghost function StatusOf<T>(mem: Memory<T>, l: Local<T>): Status<T>
    requires mem.Allocated()
  {
    match l
    case Idle => Quiet
    case EnqLoadRead(v) => Pending(Enq(v))
    case EnqLoadWrite(v, read) =>
      if mem.Slot(Increment(mem.writeIdx)) == mem.Slot(read) then Decided(Full) else Pending(Enq(v))
    case EnqClaim(v, _) => Pending(Enq(v))
    case EnqStore(v, _) => Pending(Enq(v))
    case EnqPublish(v, _) => Pending(Enq(v))
    case EnqCount => Decided(Accepted)
    case EnqReturn(ok) => Decided(if ok then Accepted else Full)
    case DeqLoadRead(_) => Pending(Deq)
    case DeqLoadLast(_, _) => Pending(Deq)
    case DeqCopy(_, _) => Pending(Deq)
    case DeqTake(_, _) => Pending(Deq)
    case DeqDiscount(d) => Decided(Got(d))
    case DeqReturn(d, ok) => Decided(if ok then Got(d) else Nothing)
  }

  ghost function Contents<T>(h: History<T>): seq<T>
    requires |h.taken| <= h.published <= |h.claimed|
  {
    h.claimed[|h.taken|..h.published]
  }

  /** The queue is empty: everything published has been taken. */
  predicate Drained<T>(h: History<T>) { h.published == |h.taken| }

  /** A run together with the marks of the threads. */
  datatype Watched<T> = Watched(x: Traced<T>, since: map<Tid, Since>)

  function ExecWatched<T>(w: Watched<T>, a: Action<T>): (w': Watched<T>)
    requires w.x.m.mem.Allocated()
    ensures w'.x.m.mem.Allocated()
  {
    var x := ExecTraced(w.x, a);
    Watched(x, Noted(w.since, EventOf(w.x.m, a), |x.h.taken|, Drained(x.h)))
  }

  function RunWatched<T>(w: Watched<T>, schedule: seq<Action<T>>): (w': Watched<T>)
    requires w.x.m.mem.Allocated()
    ensures w'.x == RunTraced(w.x, schedule)
  {
    if schedule == [] then w
    else ExecWatched(RunWatched(w, schedule[..|schedule| - 1]), schedule[|schedule| - 1])
  }

  function Watch<T>(x: Traced<T>): Watched<T> {
    Watched(x, map t | t in x.m.threads :: Since(0, true))
  }

  ghost predicate Shaped<T>(x: Traced<T>) {
    x.m.mem.Allocated() && |x.h.taken| <= x.h.published <= |x.h.claimed|
  }

  ghost function Abstract<T>(w: Watched<T>): Spec<T>
    requires Shaped(w.x)
  {
    Spec(Contents(w.x.h), |w.x.h.taken|, w.since,
      map t | t in w.x.m.threads :: StatusOf(w.x.m.mem, w.x.m.threads[t]))
  }

  // ---------------------------------------------------------------- the empty test

  /** On a read index that may be stale, the empty test holds exactly when the tickets are
      whole rounds apart: none at all if nothing was taken since the load, and otherwise
      perhaps one or more. */
  lemma EmptyTest<T>(mem: Memory<T>, h: History<T>, t: Tid, l: Local<T>)
    requires Core(mem, h) && LocalOk(mem, h, t, l) && l.DeqLoadLast?
    ensures mem.Slot(mem.lastWriteIdx) == mem.Slot(l.read) <==> (h.published - h.loaded[t]) % mem.size == 0
    ensures mem.Slot(mem.lastWriteIdx) == mem.Slot(l.read)
      ==> h.published == h.loaded[t] == |h.taken| || h.published >= h.loaded[t] + mem.size
    ensures h.published < h.loaded[t] + mem.size && mem.Slot(mem.lastWriteIdx) == mem.Slot(l.read) ==> Contents(h) == []
    ensures h.loaded[t] == |h.taken| ==>
      (mem.Slot(mem.lastWriteIdx) == mem.Slot(l.read) <==> Contents(h) == [])
  {
    SlotOfTicket(mem, h.published);
    SlotOfTicket(mem, h.loaded[t]);
    SameRemainder(h.published, h.loaded[t], mem.size);
    WholeRounds(h.published - h.loaded[t], mem.size);
  }

  lemma WholeRounds(gap: nat, size: nat)
    requires size > 0
    ensures gap % size == 0 ==> gap == 0 || gap >= size
  {
    if gap < size {
      ModUnique(gap, size, 0, gap);
    }
  }

  lemma SameRemainder(i: nat, j: nat, d: nat)
    requires d > 0 && j <= i
    ensures i % d == j % d <==> (i - j) % d == 0
  {
    if i % d == j % d {
      assert i - j == d * (i / d - j / d);
      ModUnique(i - j, d, i / d - j / d, 0);
    }
    if (i - j) % d == 0 {
      assert i == d * (j / d + (i - j) / d) + j % d;
      ModUnique(i, d, j / d + (i - j) / d, j % d);
    }
  }

  /** What a thread about to make the empty test knows. */
  ghost predicate Knows<T>(rule: EmptyRule, h: History<T>, t: Tid, since: Since) {
    && t in h.loaded
    && match rule
       case AtOnce => h.loaded[t] == |h.taken|
       case WithinCall => since.sawEmpty || h.loaded[t] == |h.taken|
       case WithinRound => since.removed <= h.loaded[t]
  }

  // ---------------------------------------------------------------- one step

  /** What one local step does to the abstract queue and to the acting thread's status:
      nothing, or one atomic application, or, if it may, an answer that misses something. */
  ghost predicate Effect<T>(capacity: nat, miss: bool, q: seq<T>, s: Status<T>, q': seq<T>, s': Status<T>) {
    || (q' == q && s' == s)
    || (s.Pending? && (
         || (s'.Decided? && Apply(q, capacity, s.op) == (q', s'.resp))
         || (miss && s.op.Deq? && q' == q && s' == Decided(Nothing))))
  }

  predicate Took<T>(s: Status<T>, s': Status<T>) {
    s.Pending? && s'.Decided? && s'.resp.Got?
  }

  /** All of that for a step of the machine. */
  ghost predicate Explained<T>(mem: Memory<T>, h: History<T>, t: Tid, l: Local<T>, spurious: bool, rule: EmptyRule,
                               since: Since)
    requires mem.Allocated() && |h.taken| <= h.published <= |h.claimed|
  {
    var (mem', l') := Advance(mem, l, spurious);
    var h' := RecordStep(mem, h, t, l, spurious);
    && |h'.taken| <= h'.published <= |h'.claimed|
    && Effect(mem.size - 1, MayMiss(rule, mem.size - 1, h.published, since),
         Contents(h), StatusOf(mem, l), Contents(h'), StatusOf(mem', l'))
    && |h'.taken| == |h.taken| + if Took(StatusOf(mem, l), StatusOf(mem', l')) then 1 else 0
  }

  lemma StepEffect<T>(mem: Memory<T>, h: History<T>, t: Tid, l: Local<T>, spurious: bool, rule: EmptyRule, since: Since)
    requires MayAct(mem, h, t, l, spurious)
    requires !l.Idle? && !l.EnqReturn? && !l.DeqReturn?
    requires l.DeqLoadLast? ==> Knows(rule, h, t, since)
    ensures Explained(mem, h, t, l, spurious, rule, since)
  {
    if l.EnqLoadRead? || l.EnqLoadWrite? {
      LoadEffect(mem, h, t, l, spurious, rule, since);
    } else if l.EnqPublish? {
      PublishEffect(mem, h, t, l, spurious, rule, since);
    } else if l.DeqLoadLast? {
      TestEffect(mem, h, t, l, spurious, rule, since);
    } else if l.DeqTake? {
      TakeEffect(mem, h, t, l, spurious, rule, since);
    } else {
      NoEffect(mem, h, t, l, spurious, rule, since);
    }
  }

  /** With the read index it loads, a full queue already answers so. */
  lemma LoadEffect<T>(mem: Memory<T>, h: History<T>, t: Tid, l: Local<T>, spurious: bool, rule: EmptyRule, since: Since)
    requires MayAct(mem, h, t, l, spurious) && (l.EnqLoadRead? || l.EnqLoadWrite?)
    ensures Explained(mem, h, t, l, spurious, rule, since)
  {
    FullTest(mem, |h.claimed|, |h.taken|);
  }

  lemma TestEffect<T>(mem: Memory<T>, h: History<T>, t: Tid, l: Local<T>, spurious: bool, rule: EmptyRule, since: Since)
    requires MayAct(mem, h, t, l, spurious) && l.DeqLoadLast? && Knows(rule, h, t, since)
    ensures Explained(mem, h, t, l, spurious, rule, since)
  {
    EmptyTest(mem, h, t, l);
  }

  lemma NoEffect<T>(mem: Memory<T>, h: History<T>, t: Tid, l: Local<T>, spurious: bool, rule: EmptyRule, since: Since)
    requires MayAct(mem, h, t, l, spurious)
    requires l.EnqClaim? || l.EnqStore? || l.EnqCount? || l.DeqLoadRead? || l.DeqCopy? || l.DeqDiscount?
    ensures Explained(mem, h, t, l, spurious, rule, since)
  {
    assert Contents(RecordStep(mem, h, t, l, spurious)) == Contents(h);
  }

  lemma PublishEffect<T>(mem: Memory<T>, h: History<T>, t: Tid, l: Local<T>, spurious: bool, rule: EmptyRule,
                         since: Since)
    requires MayAct(mem, h, t, l, spurious) && l.EnqPublish?
    ensures Explained(mem, h, t, l, spurious, rule, since)
  {
    var h' := RecordStep(mem, h, t, l, spurious);
    if h' != h {
      assert Contents(h') == Contents(h) + [l.value];
    }
  }

  lemma TakeEffect<T>(mem: Memory<T>, h: History<T>, t: Tid, l: Local<T>, spurious: bool, rule: EmptyRule, since: Since)
    requires MayAct(mem, h, t, l, spurious) && l.DeqTake?
    ensures Explained(mem, h, t, l, spurious, rule, since)
  {
    var h' := RecordStep(mem, h, t, l, spurious);
    if h' != h {
      SameTicket(h.loaded[t], |h.taken|);
      assert Contents(h') == Contents(h)[1..];
    }
  }

  /** Only the producer's status depends on memory, and only through the write index. */
  lemma StatusKept<T>(mem: Memory<T>, mem': Memory<T>, l: Local<T>)
    requires mem.Allocated() && mem'.Allocated() && mem'.size == mem.size
    requires l.EnqLoadWrite? ==> mem'.writeIdx == mem.writeIdx
    ensures StatusOf(mem', l) == StatusOf(mem, l)
  {
  }

  lemma Simulates<T>(w: Watched<T>, a: Action<T>, p: Tid, rule: EmptyRule)
    requires Solo(w.x, p) && AbaFree(w.x, a) && Marked(w, rule)
    ensures Solo(ExecTraced(w.x, a), p)
    ensures SpecStep(w.x.m.mem.size - 1, rule, Abstract(w), EventOf(w.x.m, a), Abstract(ExecWatched(w, a)))
  {
    var x := w.x;
    SoloExec(x, a, p);
    if Enabled(x.m, a) {
      var w' := ExecWatched(w, a);
      AbstractUpdate(w, w', a.tid, p);
      if EventOf(x.m, a) == Silent && !x.m.threads[a.tid].Idle? {
        SoloMayAct(x, a, p);
        SilentSimulates(w, a, rule);
      } else {
        LoudSimulates(w, a, p, rule);
      }
    }
  }

  /** Calls, returns and steps of idle threads leave the history as it is. */
  lemma LoudSimulates<T>(w: Watched<T>, a: Action<T>, p: Tid, rule: EmptyRule)
    requires Solo(w.x, p) && Enabled(w.x.m, a) && (EventOf(w.x.m, a) == Silent ==> w.x.m.threads[a.tid].Idle?)
    requires Solo(ExecTraced(w.x, a), p)
    requires var w' := ExecWatched(w, a);
      Abstract(w').status == Abstract(w).status[a.tid := StatusOf(w'.x.m.mem, w'.x.m.threads[a.tid])]
    ensures SpecStep(w.x.m.mem.size - 1, rule, Abstract(w), EventOf(w.x.m, a), Abstract(ExecWatched(w, a)))
  {
    assert ExecWatched(w, a).x.h == w.x.h;
  }

  lemma SilentSimulates<T>(w: Watched<T>, a: Action<T>, rule: EmptyRule)
    requires Enabled(w.x.m, a) && EventOf(w.x.m, a) == Silent && a.tid in w.since
    requires var l := w.x.m.threads[a.tid];
      && MayAct(w.x.m.mem, w.x.h, a.tid, l, a.Step? && a.spurious)
      && !l.Idle? && (l.DeqLoadLast? ==> Knows(rule, w.x.h, a.tid, w.since[a.tid]))
    requires var w' := ExecWatched(w, a);
      && |w'.x.h.taken| <= w'.x.h.published <= |w'.x.h.claimed|
      && Abstract(w').status == Abstract(w).status[a.tid := StatusOf(w'.x.m.mem, w'.x.m.threads[a.tid])]
    ensures SpecStep(w.x.m.mem.size - 1, rule, Abstract(w), Silent, Abstract(ExecWatched(w, a)))
  {
    var x, t, l, w' := w.x, a.tid, w.x.m.threads[a.tid], ExecWatched(w, a);
    StepEffect(x.m.mem, x.h, t, l, a.spurious, rule, w.since[t]);
    EffectIsStep(x.m.mem.size - 1, rule, Abstract(w), t, Abstract(w'), StatusOf(w'.x.m.mem, w'.x.m.threads[t]));
  }

  lemma SoloMayAct<T>(x: Traced<T>, a: Action<T>, p: Tid)
    requires Solo(x, p) && AbaFree(x, a) && Enabled(x.m, a) && a.Step?
    ensures MayAct(x.m.mem, x.h, a.tid, x.m.threads[a.tid], a.spurious)
  {
  }

  lemma AbstractUpdate<T>(w: Watched<T>, w': Watched<T>, t: Tid, p: Tid)
    requires Solo(w.x, p) && Solo(w'.x, p)
    requires var m, m' := w.x.m, w'.x.m;
      && t in m.threads && t in m'.threads && m'.threads == m.threads[t := m'.threads[t]]
      && m'.mem.size == m.mem.size && (t != p ==> m'.mem.writeIdx == m.mem.writeIdx)
    ensures Abstract(w').status == Abstract(w).status[t := StatusOf(w'.x.m.mem, w'.x.m.threads[t])]
  {
    forall u | u in w.x.m.threads && u != t
      ensures StatusOf(w'.x.m.mem, w.x.m.threads[u]) == StatusOf(w.x.m.mem, w.x.m.threads[u])
    {
      StatusKept(w.x.m.mem, w'.x.m.mem, w.x.m.threads[u]);
    }
  }

  lemma EffectIsStep<T>(capacity: nat, rule: EmptyRule, s: Spec<T>, t: Tid, s': Spec<T>, status: Status<T>)
    requires t in s.status && t in s.since && s'.status == s.status[t := status]
    requires Effect(capacity, MayMiss(rule, capacity, s.removed + |s.queue|, s.since[t]), s.queue, s.status[t],
      s'.queue, status)
    requires s'.removed == s.removed + if Took(s.status[t], status) then 1 else 0
    requires s'.since == Noted(s.since, Event<T>.Silent, s'.removed, s'.queue == [])
    ensures SpecStep(capacity, rule, s, Silent, s')
  {
    if s'.queue == s.queue && status == s.status[t] {
      assert s'.status == s.status;
    } else {
      assert Decides(capacity, rule, s, t, s');
    }
  }

  // ---------------------------------------------------------------- the marks

  /** The marks agree with the history, and a thread about to test knows what its rule asks. */
  ghost predicate Marked<T>(w: Watched<T>, rule: EmptyRule) {
    forall t | t in w.x.m.threads :: t in w.since && MarkOk(w.x.h, t, w.x.m.threads[t], w.since[t], rule)
  }

  ghost predicate MarkOk<T>(h: History<T>, t: Tid, l: Local<T>, since: Since, rule: EmptyRule) {
    && since.removed <= |h.taken| && (Drained(h) ==> since.sawEmpty)
    && (l.DeqLoadLast? ==> Knows(rule, h, t, since))
    && (rule == WithinCall && l.DeqReturn? && !l.ok ==> since.sawEmpty)
  }

  /** What the rule needs of the run. */
  ghost predicate Suits<T>(rule: EmptyRule, x: Traced<T>, c: Tid) {
    match rule
    case AtOnce => Fresh(x, c)
    case WithinCall => x.m.mem.size == 2 || Fresh(x, c)
    case WithinRound => true
  }

  lemma MarkedStep<T>(w: Watched<T>, a: Action<T>, p: Tid, rule: EmptyRule, c: Tid)
    requires Solo(w.x, p) && AbaFree(w.x, a) && Marked(w, rule) && Suits(rule, w.x, c)
    ensures Marked(ExecWatched(w, a), rule)
  {
    SoloExec(w.x, a, p);
    var w' := ExecWatched(w, a);
    forall u | u in w'.x.m.threads
      ensures u in w'.since && MarkOk(w'.x.h, u, w'.x.m.threads[u], w'.since[u], rule)
    {
      if Enabled(w.x.m, a) && u == a.tid {
        OwnMark(w, a, p, rule);
      } else {
        OtherMark(w, a, p, rule, c, u);
      }
    }
  }

  lemma OwnMark<T>(w: Watched<T>, a: Action<T>, p: Tid, rule: EmptyRule)
    requires Solo(w.x, p) && AbaFree(w.x, a) && Marked(w, rule) && Enabled(w.x.m, a)
    ensures var w' := ExecWatched(w, a);
      a.tid in w'.since && MarkOk(w'.x.h, a.tid, w'.x.m.threads[a.tid], w'.since[a.tid], rule)
  {
    var x, t := w.x, a.tid;
    if a.Step? && x.m.threads[t].DeqLoadLast? {
      EmptyTest(x.m.mem, x.h, t, x.m.threads[t]);
    }
  }

  /** Nobody else's step takes from a thread what it knows: at size 2, a take that makes a read
      index stale leaves the queue empty. */
  lemma OtherMark<T>(w: Watched<T>, a: Action<T>, p: Tid, rule: EmptyRule, c: Tid, u: Tid)
    requires Solo(w.x, p) && AbaFree(w.x, a) && Marked(w, rule) && Suits(rule, w.x, c)
    requires Solo(ExecTraced(w.x, a), p)
    requires u in w.x.m.threads && !(Enabled(w.x.m, a) && u == a.tid)
    ensures var w' := ExecWatched(w, a);
      u in w'.since && MarkOk(w'.x.h, u, w.x.m.threads[u], w'.since[u], rule)
  {
    TakenGrows(w.x, a);
  }

  // ---------------------------------------------------------------- whole runs

  /** All that a run keeps. */
  ghost predicate Ready<T>(w: Watched<T>, p: Tid, rule: EmptyRule, c: Tid) {
    Solo(w.x, p) && Marked(w, rule) && Suits(rule, w.x, c)
  }

  lemma ReadyStep<T>(w: Watched<T>, a: Action<T>, p: Tid, rule: EmptyRule, c: Tid)
    requires Ready(w, p, rule, c) && AbaFree(w.x, a)
    ensures Ready(ExecWatched(w, a), p, rule, c)
    ensures Shaped(w.x) && Shaped(ExecWatched(w, a).x)
    ensures SpecStep(w.x.m.mem.size - 1, rule, Abstract(w), EventOf(w.x.m, a), Abstract(ExecWatched(w, a)))
  {
    Simulates(w, a, p, rule);
    MarkedStep(w, a, p, rule, c);
    SuitsStep(w.x, a, rule, c);
  }

  /** A run of the specification that ends in the abstract state of `w`. */
  ghost predicate Explains<T>(w: Watched<T>, capacity: nat, rule: EmptyRule, states: seq<Spec<T>>,
                              events: seq<Event<T>>) {
    && Shaped(w.x)
    && SpecRun(capacity, rule, states, events) && states[|events|] == Abstract(w)
  }

  lemma {:induction false} ReadyRun<T>(w: Watched<T>, schedule: seq<Action<T>>, p: Tid, rule: EmptyRule, c: Tid)
    requires Ready(w, p, rule, c) && AbaFreeRun(w.x, schedule)
    ensures Ready(RunWatched(w, schedule), p, rule, c)
  {
    if schedule != [] {
      var n := |schedule| - 1;
      ReadyRun(w, schedule[..n], p, rule, c);
      assert AbaFree(RunTraced(w.x, schedule[..n]), schedule[n]);
      ReadyStep(RunWatched(w, schedule[..n]), schedule[n], p, rule, c);
    }
  }

  /** One step more is one step of the specification more. */
  lemma SpecStepsOn<T>(y: Watched<T>, a: Action<T>, p: Tid, rule: EmptyRule, c: Tid, capacity: nat)
    requires Ready(y, p, rule, c) && AbaFree(y.x, a) && capacity == y.x.m.mem.size - 1
    ensures Shaped(y.x) && Shaped(ExecWatched(y, a).x)
    ensures SpecStep(capacity, rule, Abstract(y), EventOf(y.x.m, a), Abstract(ExecWatched(y, a)))
  {
    ReadyStep(y, a, p, rule, c);
  }

  lemma {:induction false} SimulatesRun<T>(w: Watched<T>, schedule: seq<Action<T>>, p: Tid, rule: EmptyRule, c: Tid)
    returns (states: seq<Spec<T>>)
    requires Ready(w, p, rule, c) && AbaFreeRun(w.x, schedule) && Shaped(w.x) && SpecBegins(Abstract(w))
    ensures Explains(RunWatched(w, schedule), w.x.m.mem.size - 1, rule, states, Events(w.x.m, schedule))
  {
    if schedule == [] {
      states := [Abstract(w)];
    } else {
      var n, capacity := |schedule| - 1, w.x.m.mem.size - 1;
      var y, a := RunWatched(w, schedule[..n]), schedule[n];
      var before := SimulatesRun(w, schedule[..n], p, rule, c);
      assert Shaped(ExecWatched(y, a).x)
        && SpecStep(capacity, rule, Abstract(y), EventOf(y.x.m, a), Abstract(ExecWatched(y, a))) by {
        ReadyRun(w, schedule[..n], p, rule, c);
        SizeKept(w.x, schedule[..n]);
        SpecStepsOn(y, a, p, rule, c, capacity);
      }
      var events := Events(w.x.m, schedule[..n]);
      states := ExplainsNext(y, ExecWatched(y, a), capacity, rule, before, events, EventOf(y.x.m, a));
    }
  }

  lemma ExplainsNext<T>(y: Watched<T>, y': Watched<T>, capacity: nat, rule: EmptyRule, before: seq<Spec<T>>,
                        events: seq<Event<T>>, event: Event<T>)
    returns (states: seq<Spec<T>>)
    requires Explains(y, capacity, rule, before, events)
    requires Shaped(y'.x)
    requires SpecStep(capacity, rule, Abstract(y), event, Abstract(y'))
    ensures Explains(y', capacity, rule, states, events + [event])
  {
    SpecRunExtends(capacity, rule, before, events, event, Abstract(y'));
    states := before + [Abstract(y')];
  }

  lemma SuitsStep<T>(x: Traced<T>, a: Action<T>, rule: EmptyRule, c: Tid)
    requires x.m.mem.Allocated() && Suits(rule, x, c)
    ensures Suits(rule, ExecTraced(x, a), c)
  {
    if Fresh(x, c) {
      FreshExec(x, a, c);
    }
  }

  lemma WatchBegins<T>(size: Word, slots: seq<T>, p: Tid, enqueuers: set<Tid>, dequeuers: set<Tid>, rule: EmptyRule,
                       c: Tid)
    requires GoodSize(size) && |slots| == size && enqueuers <= {p}
    requires rule == AtOnce ==> dequeuers <= {c}
    requires rule == WithinCall ==> size == 2 || dequeuers <= {c}
    ensures var w := Watch(Begin(Constructed(size, slots, enqueuers, dequeuers)));
      Ready(w, p, rule, c) && Shaped(w.x) && SpecBegins(Abstract(w))
  {
    SoloBegin(size, slots, p, enqueuers, dequeuers);
  }

  /** Every run of one producer and any number of consumers that is free of index wrap-around
      confusion shows its callers nothing but what the abstract bounded queue could show. A
      dequeue that answers "empty" while something is there has seen a whole round of `size`
      elements published beyond what had been taken at its call; with size 2, or with one
      consumer, the queue was empty at some moment of the call. */
  lemma LinearizableRun<T(!new)>(size: Word, slots: seq<T>, p: Tid, enqueuers: set<Tid>, dequeuers: set<Tid>,
                                 c: Tid, schedule: seq<Action<T>>)
    requires GoodSize(size) && |slots| == size && enqueuers <= {p}
    requires AbaFreeRun(Begin(Constructed(size, slots, enqueuers, dequeuers)), schedule)
    ensures var events := Events(Constructed(size, slots, enqueuers, dequeuers), schedule);
      && Admits(size - 1, WithinRound, events)
      && (size == 2 || dequeuers <= {c} ==> Admits(size - 1, WithinCall, events))
  {
    var w := Watch(Begin(Constructed(size, slots, enqueuers, dequeuers)));
    WatchBegins(size, slots, p, enqueuers, dequeuers, WithinRound, c);
    var states := SimulatesRun(w, schedule, p, WithinRound, c);
    if size == 2 || dequeuers <= {c} {
      WatchBegins(size, slots, p, enqueuers, dequeuers, WithinCall, c);
      states := SimulatesRun(w, schedule, p, WithinCall, c);
    }
  }

  /** With one producer and one consumer no hypothesis on the run is left, and every answer,
      full or empty, is exact. */
  lemma LinearizableOneToOne<T(!new)>(size: Word, slots: seq<T>, p: Tid, enqueuers: set<Tid>, c: Tid,
                                      dequeuers: set<Tid>,
                                      schedule: seq<Action<T>>)
    requires GoodSize(size) && |slots| == size && enqueuers <= {p} && dequeuers <= {c}
    ensures Admits(size - 1, AtOnce, Events(Constructed(size, slots, enqueuers, dequeuers), schedule))
  {
    OneConsumerAbaFree(size, slots, enqueuers, dequeuers, c, schedule);
    WatchBegins(size, slots, p, enqueuers, dequeuers, AtOnce, c);
    var w := Watch(Begin(Constructed(size, slots, enqueuers, dequeuers)));
    var states := SimulatesRun(w, schedule, p, AtOnce, c);
  }

  /** When every call has returned, `size()` is the number of elements in the queue, and
      `empty()` says whether there are none. */
  lemma QuiescentOccupancy<T>(size: Word, slots: seq<T>, p: Tid, enqueuers: set<Tid>, dequeuers: set<Tid>,
                              schedule: seq<Action<T>>)
    requires GoodSize(size) && |slots| == size && enqueuers <= {p}
    requires AbaFreeRun(Begin(Constructed(size, slots, enqueuers, dequeuers)), schedule)
    ensures var x := RunTraced(Begin(Constructed(size, slots, enqueuers, dequeuers)), schedule);
      Quiescent(x.m) ==>
        && |x.h.taken| <= x.h.published <= |x.h.claimed|
        && Size(x.m) == |Contents(x.h)| && (Empty(x.m) <==> Contents(x.h) == [])
  {
    var x := RunTraced(Begin(Constructed(size, slots, enqueuers, dequeuers)), schedule);
    FifoRun(size, slots, p, enqueuers, dequeuers, schedule);
    if Quiescent(x.m) {
      QuiescentSize(size, slots, enqueuers, dequeuers, schedule);
      DifferenceOfWords(x.h.published, |x.h.taken|);
    }
  }

  lemma DifferenceOfWords(x: nat, y: nat)
    requires y <= x < y + WORD
    ensures (x % WORD - y % WORD) % WORD == x - y
  {
  }
}
