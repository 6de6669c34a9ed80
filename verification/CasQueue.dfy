/** The lock-free queue as a step machine. Every atomic load, compare-and-swap (which may
    fail spuriously), slot copy and length update of `enqueue` and `dequeue` is one step of
    one thread; a schedule is any sequence of such steps, so it is any interleaving. Memory
    holds 32-bit words only. */
module CasQueue {
  import opened Bits
  import opened PowerOfTwo

  type Tid = nat

  datatype Memory<T> = Memory(
    size: Word,
    length: Word,
    readIdx: Word,
    writeIdx: Word,
    lastWriteIdx: Word,
    queue: seq<T>)
  {
    predicate Allocated() {
      size > 0 && |queue| == size
    }

    function Slot(index: Word): (i: nat)
      requires Allocated()
      ensures i < |queue|
    {
      AndAtMost(index, Decrement(size));
      IndexOfQueue(size, index)
    }
  }

  /** Where a thread is, with the local variables still alive there. The names say what the
      thread does next. */
  datatype Local<T> =
    | Idle
    | EnqLoadRead(value: T)
    | EnqLoadWrite(value: T, read: Word)
    | EnqClaim(value: T, write: Word)
    | EnqStore(value: T, write: Word)
    | EnqPublish(value: T, write: Word)
    | EnqCount
    | EnqReturn(ok: bool)
    | DeqLoadRead(data: T)
    | DeqLoadLast(data: T, read: Word)
    | DeqCopy(data: T, read: Word)
    | DeqTake(data: T, read: Word)
    | DeqDiscount(data: T)
    | DeqReturn(data: T, ok: bool)

  /** `enqueuers` and `dequeuers` are the threads that may call each operation. */
  datatype Machine<T> = Machine(
    mem: Memory<T>,
    threads: map<Tid, Local<T>>,
    enqueuers: set<Tid>,
    dequeuers: set<Tid>)

  datatype Action<T> =
    | CallEnqueue(tid: Tid, value: T)
    | CallDequeue(tid: Tid, data: T)
    | Step(tid: Tid, spurious: bool)

  /** The machine right after construction with `_size` already chosen: all words zero, the
      slots as allocated. */
  function Constructed<T>(size: Word, slots: seq<T>, enqueuers: set<Tid>, dequeuers: set<Tid>): Machine<T> {
    Machine(
      Memory(size, 0, 0, 0, 0, slots),
      map t | t in enqueuers + dequeuers :: Idle,
      enqueuers, dequeuers)
  }

  /** One atomic step of a thread inside a call. */
  function Advance<T>(mem: Memory<T>, local: Local<T>, spurious: bool): (r: (Memory<T>, Local<T>))
    requires mem.Allocated()
    ensures r.0.Allocated() && r.0.size == mem.size
  {
    match local
    case Idle => (mem, Idle)
    // enqueue
    case EnqLoadRead(v) => (mem, EnqLoadWrite(v, mem.readIdx))
    case EnqLoadWrite(v, read) =>
      if mem.Slot(Increment(mem.writeIdx)) == mem.Slot(read)
      then (mem, EnqReturn(false))
      else (mem, EnqClaim(v, mem.writeIdx))
    case EnqClaim(v, write) =>
      if mem.writeIdx == write && !spurious
      then (mem.(writeIdx := Increment(write)), EnqStore(v, write))
      else (mem, EnqLoadRead(v))
    case EnqStore(v, write) =>
      (mem.(queue := mem.queue[mem.Slot(write) := v]), EnqPublish(v, write))
    case EnqPublish(v, write) =>
      if mem.lastWriteIdx == write && !spurious
      then (mem.(lastWriteIdx := Increment(write)), EnqCount)
      else (mem, EnqPublish(v, mem.lastWriteIdx))   // the failed CAS overwrites its operand
    case EnqCount => (mem.(length := Increment(mem.length)), EnqReturn(true))
    case EnqReturn(_) => (mem, Idle)
    // dequeue
    case DeqLoadRead(d) => (mem, DeqLoadLast(d, mem.readIdx))
    case DeqLoadLast(d, read) =>
      if mem.Slot(mem.lastWriteIdx) == mem.Slot(read)
      then (mem, DeqReturn(d, false))
      else (mem, DeqCopy(d, read))
    case DeqCopy(_, read) => (mem, DeqTake(mem.queue[mem.Slot(read)], read))
    case DeqTake(d, read) =>
      if mem.readIdx == read && !spurious
      then (mem.(readIdx := Increment(read)), DeqDiscount(d))
      else (mem, DeqLoadRead(d))
    case DeqDiscount(d) => (mem.(length := Decrement(mem.length)), DeqReturn(d, true))
    case DeqReturn(_, _) => (mem, Idle)
  }

  predicate Enabled<T>(m: Machine<T>, a: Action<T>) {
    && a.tid in m.threads
    && match a
       case CallEnqueue(t, _) => t in m.enqueuers && m.threads[t].Idle?
       case CallDequeue(t, _) => t in m.dequeuers && m.threads[t].Idle?
       case Step(t, _) => true
  }

  /** What one action does; an action that is not enabled does nothing. */
  function Exec<T>(m: Machine<T>, a: Action<T>): (m': Machine<T>)
    requires m.mem.Allocated()
    ensures m'.mem.Allocated() && m'.mem.size == m.mem.size
  {
    if !Enabled(m, a) then m
    else
      match a
      case CallEnqueue(t, v) => m.(threads := m.threads[t := EnqLoadRead(v)])
      case CallDequeue(t, d) => m.(threads := m.threads[t := DeqLoadRead(d)])
      case Step(t, spurious) =>
        var (mem, local) := Advance(m.mem, m.threads[t], spurious);
        m.(mem := mem, threads := m.threads[t := local])
  }

  function Run<T>(m: Machine<T>, schedule: seq<Action<T>>): (m': Machine<T>)
    requires m.mem.Allocated()
    ensures m'.mem.Allocated() && m'.mem.size == m.mem.size
  {
    if schedule == [] then m
    else Exec(Run(m, schedule[..|schedule| - 1]), schedule[|schedule| - 1])
  }

  /** `size()` and `empty()` read the counter and nothing else. */
  function Size<T>(m: Machine<T>): Word {
    m.mem.length
  }

  predicate Empty<T>(m: Machine<T>) {
    m.mem.length == 0
  }
}
