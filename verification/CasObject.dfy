/** The queue as an object with its two operations written out, and the proof that a thread of
    the step machine is one call of these, whatever the other threads do in between. */
module CasObject {
  import opened Bits
  import opened PowerOfTwo
  import opened CasQueue

  /** What a call finds at one of its atomic accesses: the memory as the other threads have
      left it, and whether a compare-and-swap there fails for no reason. */
  datatype Gust<T> = Gust(mem: Memory<T>, spurious: bool)

  ghost predicate Fits<T>(script: seq<Gust<T>>, size: Word) {
    forall i | 0 <= i < |script| :: script[i].mem.Allocated() && script[i].mem.size == size
  }

  /** The memory and the thread after the accesses of a script. */
  ghost function Drive<T>(mem: Memory<T>, local: Local<T>, script: seq<Gust<T>>): (r: (Memory<T>, Local<T>))
    requires Fits(script, mem.size) && mem.Allocated()
    ensures r.0.Allocated() && r.0.size == mem.size
  {
    if script == [] then (mem, local)
    else
      var n := |script| - 1;
      Advance(script[n].mem, Drive(mem, local, script[..n]).1, script[n].spurious)
  }

  /** The first `k` accesses of the script lead here. */
  ghost predicate Here<T>(start: Memory<T>, first: Local<T>, script: seq<Gust<T>>, k: nat, mem: Memory<T>,
                          local: Local<T>) {
    start.Allocated() && Fits(script, start.size) && k <= |script| && Drive(start, first, script[..k]) == (mem, local)
  }

  /** One access further on. */
  lemma HereNext<T>(start: Memory<T>, first: Local<T>, script: seq<Gust<T>>, k: nat, mem: Memory<T>, local: Local<T>)
    returns (next: Local<T>)
    requires Here(start, first, script, k, mem, local) && k < |script|
    ensures script[k].mem.Allocated() && script[k].mem.size == start.size
    ensures var r := Advance(script[k].mem, local, script[k].spurious);
      next == r.1 && Here(start, first, script, k + 1, r.0, next)
  {
    assert script[..k + 1][..k] == script[..k];
    next := Advance(script[k].mem, local, script[k].spurious).1;
  }

  /** Whether a call has returned. */
  datatype Reply = Pending | Returned(ok: bool)

  class CasQueueObject<T(0)> {
    const size: Word
    var length: Word
    var readIdx: Word
    var writeIdx: Word
    var lastWriteIdx: Word
    const queue: array<T>

    predicate Valid() {
      size > 0 && queue.Length == size
    }

    function Mem(): Memory<T>
      reads this, queue
    {
      Memory(size, length, readIdx, writeIdx, lastWriteIdx, queue[..])
    }

    constructor (size: Word)
      ensures fresh(queue) && queue.Length == this.size == QueueSize(size)
      ensures Mem() == Constructed(QueueSize(size), queue[..], {}, {}).mem
      ensures Valid() && GoodSize(this.size) <==> size != 0x8000_0001
      ensures this.size >= size <==> size <= 0x8000_0000
    {
      length, readIdx, writeIdx, lastWriteIdx := 0, 0, 0, 0;
      var chosen: Word;
      if size == 1 {
        chosen := 2;
      } else {
        chosen := if PowerOfTwo.PowerOfTwo(size) then size else RoundupPowerOfTwo(size);
      }
      this.size := chosen;
      queue := new T[chosen];
      QueueSizeGood(size);
    }

    // ------------------------------------------------------------ the atomic accesses

    /** The other threads act. */
    method Interfere(gust: Gust<T>)
      requires Valid() && gust.mem.Allocated() && gust.mem.size == size
      modifies this, queue
      ensures Mem() == gust.mem
    {
      length, readIdx, writeIdx, lastWriteIdx := gust.mem.length, gust.mem.readIdx, gust.mem.writeIdx,
        gust.mem.lastWriteIdx;
      forall i | 0 <= i < queue.Length {
        queue[i] := gust.mem.queue[i];
      }
      assert queue[..] == gust.mem.queue;
    }

    method LoadReadIdx(gust: Gust<T>) returns (index: Word)
      requires Valid() && gust.mem.Allocated() && gust.mem.size == size
      modifies this, queue
      ensures Mem() == gust.mem && index == gust.mem.readIdx
    {
      Interfere(gust);
      index := readIdx;
    }

    method LoadWriteIdx(gust: Gust<T>) returns (index: Word)
      requires Valid() && gust.mem.Allocated() && gust.mem.size == size
      modifies this, queue
      ensures Mem() == gust.mem && index == gust.mem.writeIdx
    {
      Interfere(gust);
      index := writeIdx;
    }

    method LoadLastWriteIdx(gust: Gust<T>) returns (index: Word)
      requires Valid() && gust.mem.Allocated() && gust.mem.size == size
      modifies this, queue
      ensures Mem() == gust.mem && index == gust.mem.lastWriteIdx
    {
      Interfere(gust);
      index := lastWriteIdx;
    }

    /** A weak compare-and-swap: the operand holds the observed value after a failure. */
    method SwapReadIdx(gust: Gust<T>, expected: Word, desired: Word) returns (ok: bool, observed: Word)
      requires Valid() && gust.mem.Allocated() && gust.mem.size == size
      modifies this, queue
      ensures ok == (gust.mem.readIdx == expected && !gust.spurious) && observed == gust.mem.readIdx
      ensures Mem() == if ok then gust.mem.(readIdx := desired) else gust.mem
    {
      Interfere(gust);
      observed := readIdx;
      ok := readIdx == expected && !gust.spurious;
      if ok {
        readIdx := desired;
      }
    }

    method SwapWriteIdx(gust: Gust<T>, expected: Word, desired: Word) returns (ok: bool, observed: Word)
      requires Valid() && gust.mem.Allocated() && gust.mem.size == size
      modifies this, queue
      ensures ok == (gust.mem.writeIdx == expected && !gust.spurious) && observed == gust.mem.writeIdx
      ensures Mem() == if ok then gust.mem.(writeIdx := desired) else gust.mem
    {
      Interfere(gust);
      observed := writeIdx;
      ok := writeIdx == expected && !gust.spurious;
      if ok {
        writeIdx := desired;
      }
    }

    method SwapLastWriteIdx(gust: Gust<T>, expected: Word, desired: Word) returns (ok: bool, observed: Word)
      requires Valid() && gust.mem.Allocated() && gust.mem.size == size
      modifies this, queue
      ensures ok == (gust.mem.lastWriteIdx == expected && !gust.spurious) && observed == gust.mem.lastWriteIdx
      ensures Mem() == if ok then gust.mem.(lastWriteIdx := desired) else gust.mem
    {
      Interfere(gust);
      observed := lastWriteIdx;
      ok := lastWriteIdx == expected && !gust.spurious;
      if ok {
        lastWriteIdx := desired;
      }
    }

    method StoreSlot(gust: Gust<T>, index: Word, data: T)
      requires Valid() && gust.mem.Allocated() && gust.mem.size == size
      modifies this, queue
      ensures Mem() == gust.mem.(queue := gust.mem.queue[gust.mem.Slot(index) := data])
    {
      Interfere(gust);
      AndAtMost(index, Decrement(size));
      queue[IndexOfQueue(size, index)] := data;
    }

    method LoadSlot(gust: Gust<T>, index: Word) returns (data: T)
      requires Valid() && gust.mem.Allocated() && gust.mem.size == size
      modifies this, queue
      ensures Mem() == gust.mem && data == gust.mem.queue[gust.mem.Slot(index)]
    {
      Interfere(gust);
      AndAtMost(index, Decrement(size));
      data := queue[IndexOfQueue(size, index)];
    }

    method AddToLength(gust: Gust<T>)
      requires Valid() && gust.mem.Allocated() && gust.mem.size == size
      modifies this, queue
      ensures Mem() == gust.mem.(length := Increment(gust.mem.length))
    {
      Interfere(gust);
      length := Increment(length);
    }

    method SubtractFromLength(gust: Gust<T>)
      requires Valid() && gust.mem.Allocated() && gust.mem.size == size
      modifies this, queue
      ensures Mem() == gust.mem.(length := Decrement(gust.mem.length))
    {
      Interfere(gust);
      length := Decrement(length);
    }

    // ------------------------------------------------------------ the operations

    /** One call under a script of interference, until it returns or the script ends. It goes
        exactly where the step machine goes. */
    method Enqueue(data: T, script: seq<Gust<T>>) returns (reply: Reply, ghost local: Local<T>, ghost used: nat)
      requires Valid() && Fits(script, size)
      modifies this, queue
      ensures Here(old(Mem()), EnqLoadRead(data), script, used, Mem(), local)
      ensures if reply.Pending? then used == |script| && !local.EnqReturn? else local == EnqReturn(reply.ok)
    {
      ghost var start, first := Mem(), EnqLoadRead(data);
      var k, currWriteIdx;
      reply, k, currWriteIdx, local := ClaimSlot(data, script);
      used := k;
      if reply.Returned? || k == |script| { return; }

      local := HereNext(start, first, script, k, Mem(), local);
      StoreSlot(script[k], currWriteIdx, data);
      k, used := k + 1, used + 1;

      k, local := Publish(data, currWriteIdx, script, k, start, first);
      used := k;
      if k == |script| { return; }

      local := HereNext(start, first, script, k, Mem(), local);
      AddToLength(script[k]);
      used := used + 1;
      reply := Returned(true);
    }

    /** The first loop of an enqueue: up to the claim of a slot, or the answer that there is
        none. */
    method ClaimSlot(data: T, script: seq<Gust<T>>)
      returns (reply: Reply, k: nat, currWriteIdx: Word, ghost local: Local<T>)
      requires Valid() && Fits(script, size)
      modifies this, queue
      ensures Here(old(Mem()), EnqLoadRead(data), script, k, Mem(), local)
      ensures match reply
        case Returned(ok) => local == EnqReturn(ok)
        case Pending => local == EnqStore(data, currWriteIdx) || (k == |script| && !local.EnqReturn?)
    {
      ghost var start, first := Mem(), EnqLoadRead(data);
      reply, k, local, currWriteIdx := Pending, 0, first, 0;
      while true
        invariant k <= |script| && local == EnqLoadRead(data) && reply == Pending
        invariant Here(start, first, script, k, Mem(), local)
        decreases |script| - k
      {
        if k == |script| { return; }
        local := HereNext(start, first, script, k, Mem(), local);
        var currReadIdx := LoadReadIdx(script[k]);
        k := k + 1;

        if k == |script| { return; }
        local := HereNext(start, first, script, k, Mem(), local);
        currWriteIdx := LoadWriteIdx(script[k]);
        k := k + 1;

        if IndexOfQueue(size, Increment(currWriteIdx)) == IndexOfQueue(size, currReadIdx) {
          reply := Returned(false);
          return;
        }

        if k == |script| { return; }
        local := HereNext(start, first, script, k, Mem(), local);
        var ok, observed := SwapWriteIdx(script[k], currWriteIdx, Increment(currWriteIdx));
        k := k + 1;
        if ok { return; }
        currWriteIdx := observed;
      }
    }

    /** The second loop: a failed swap goes on with the index it has observed. */
    method Publish(data: T, index: Word, script: seq<Gust<T>>, from: nat, ghost start: Memory<T>, ghost first: Local<T>)
      returns (k: nat, ghost local: Local<T>)
      requires Valid() && Fits(script, size) && Here(start, first, script, from, Mem(), EnqPublish(data, index))
      modifies this, queue
      ensures Here(start, first, script, k, Mem(), local)
      ensures local == EnqCount || (k == |script| && local.EnqPublish?)
    {
      k, local := from, EnqPublish(data, index);
      var currWriteIdx := index;
      while k < |script|
        invariant k <= |script| && local == EnqPublish(data, currWriteIdx)
        invariant Here(start, first, script, k, Mem(), local)
      {
        local := HereNext(start, first, script, k, Mem(), local);
        var ok, observed := SwapLastWriteIdx(script[k], currWriteIdx, Increment(currWriteIdx));
        k := k + 1;
        if ok { return; }
        currWriteIdx := observed;
      }
    }

    /** The same for `dequeue`; `data` is the caller's variable. */
    method Dequeue(data: T, script: seq<Gust<T>>)
      returns (result: T, reply: Reply, ghost local: Local<T>, k: nat)
      requires Valid() && Fits(script, size)
      modifies this, queue
      ensures Here(old(Mem()), DeqLoadRead(data), script, k, Mem(), local)
      ensures if reply.Pending? then k == |script| && !local.DeqReturn? else local == DeqReturn(result, reply.ok)
    {
      ghost var start, first := Mem(), DeqLoadRead(data);
      result, reply, local, k := data, Pending, first, 0;
      while true
        invariant k <= |script| && local == DeqLoadRead(result)
        invariant Here(start, first, script, k, Mem(), local)
        decreases |script| - k
      {
        var currReadIdx;
        k, reply, currReadIdx, local := LookForData(result, script, k, start, first);
        if reply.Returned? || k == |script| { return; }

        k, result, reply, local := TakeSlot(result, currReadIdx, script, k, start, first);
        if reply.Pending? { return; }
        if reply.ok {
          if k == |script| {
            reply := Pending;
            return;
          }
          local := HereNext(start, first, script, k, Mem(), local);
          SubtractFromLength(script[k]);
          k := k + 1;
          return;
        }
      }
    }

    /** Loads both indices and answers `Returned(false)` if they say that there is nothing. */
    method LookForData(data: T, script: seq<Gust<T>>, from: nat, ghost start: Memory<T>, ghost first: Local<T>)
      returns (k: nat, reply: Reply, currReadIdx: Word, ghost local: Local<T>)
      requires Valid() && Fits(script, size) && Here(start, first, script, from, Mem(), DeqLoadRead(data))
      modifies this, queue
      ensures Here(start, first, script, k, Mem(), local) && from <= k
      ensures match reply
        case Returned(ok) => local == DeqReturn(data, ok)
        case Pending => local == DeqCopy(data, currReadIdx) || (k == |script| && !local.DeqReturn?)
    {
      k, reply, currReadIdx, local := from, Pending, 0, DeqLoadRead(data);
      if k == |script| { return; }
      local := HereNext(start, first, script, k, Mem(), local);
      currReadIdx := LoadReadIdx(script[k]);
      k := k + 1;

      if k == |script| { return; }
      local := HereNext(start, first, script, k, Mem(), local);
      var lastWriteIdx := LoadLastWriteIdx(script[k]);
      k := k + 1;

      if IndexOfQueue(size, lastWriteIdx) == IndexOfQueue(size, currReadIdx) {
        reply := Returned(false);
      }
    }

    /** Copies a slot and then tries to move the read index past it. */
    method TakeSlot(data: T, currReadIdx: Word, script: seq<Gust<T>>, from: nat, ghost start: Memory<T>,
                    ghost first: Local<T>)
      returns (k: nat, result: T, taken: Reply, ghost local: Local<T>)
      requires Valid() && Fits(script, size) && Here(start, first, script, from, Mem(), DeqCopy(data, currReadIdx))
      modifies this, queue
      ensures Here(start, first, script, k, Mem(), local) && from <= k
      ensures match taken
        case Returned(ok) => from < k && local == if ok then DeqDiscount(result) else DeqLoadRead(result)
        case Pending => k == |script| && !local.DeqReturn?
    {
      k, result, taken, local := from, data, Pending, DeqCopy(data, currReadIdx);
      if k == |script| { return; }
      local := HereNext(start, first, script, k, Mem(), local);
      result := LoadSlot(script[k], currReadIdx);
      k := k + 1;

      if k == |script| { return; }
      local := HereNext(start, first, script, k, Mem(), local);
      var ok, observed := SwapReadIdx(script[k], currReadIdx, Increment(currReadIdx));
      k := k + 1;
      taken := Returned(ok);
    }
  }

  // ---------------------------------------------------------------- threads are calls

  /** Only the other threads, and steps of this one. */
  ghost predicate InsideCall<T>(schedule: seq<Action<T>>, t: Tid) {
    forall i | 0 <= i < |schedule| :: schedule[i].tid == t ==> schedule[i].Step?
  }

  /** What thread `t` finds at its steps of a schedule. */
  ghost function Script<T>(m: Machine<T>, schedule: seq<Action<T>>, t: Tid): (script: seq<Gust<T>>)
    requires m.mem.Allocated()
    ensures Fits(script, m.mem.size)
  {
    if schedule == [] then []
    else
      var n := |schedule| - 1;
      var before, a := Script(m, schedule[..n], t), schedule[n];
      if a.Step? && a.tid == t then before + [Gust(Run(m, schedule[..n]).mem, a.spurious)] else before
  }

  /** In every schedule, a thread inside a call is where its script drives the call. */
  lemma {:induction false} ThreadIsCall<T>(m: Machine<T>, schedule: seq<Action<T>>, t: Tid)
    requires m.mem.Allocated() && t in m.threads && InsideCall(schedule, t)
    ensures t in Run(m, schedule).threads
    ensures Run(m, schedule).threads[t] == Drive(m.mem, m.threads[t], Script(m, schedule, t)).1
  {
    if schedule != [] {
      var n := |schedule| - 1;
      var a, before := schedule[n], Run(m, schedule[..n]);
      ThreadIsCall(m, schedule[..n], t);
      if a.Step? && a.tid == t {
        var script := Script(m, schedule, t);
        assert script[..|script| - 1] == Script(m, schedule[..n], t);
      }
    }
  }
}
