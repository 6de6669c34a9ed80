/** Nobody has to wait for another thread to get out of a call: whatever the others have done and
    wherever they have stopped, a thread that runs alone from any point of a call returns within
    nine steps, and a swap that it has lost makes it look again at the memory as it is. */
module CasProgress {
  import opened Bits
  import opened CasQueue
  import opened CasFifo
  import opened CasRuns

  lemma {:induction false} AheadAdds<T>(v: View<T>, t: Tid, m: nat, n: nat)
    requires v.mem.Allocated()
    ensures Ahead(v, t, m + n) == Ahead(Ahead(v, t, m), t, n)
    decreases m
  {
    if m > 0 {
      AheadAdds(Next(v, t), t, m - 1, n);
    }
  }

  lemma {:induction false} IdleStays<T>(v: View<T>, t: Tid, n: nat)
    requires v.mem.Allocated() && v.l.Idle?
    ensures Ahead(v, t, n) == v
    decreases n
  {
    if n > 0 {
      assert Next(v, t) == v;
      IdleStays(v, t, n - 1);
    }
  }

  /** Once idle, idle at any later step. */
  lemma IdleBy<T>(v: View<T>, t: Tid, m: nat, n: nat)
    requires v.mem.Allocated() && Ahead(v, t, m).l.Idle? && m <= n
    ensures Ahead(v, t, n) == Ahead(v, t, m)
  {
    AheadAdds(v, t, m, n - m);
    IdleStays(Ahead(v, t, m), t, n - m);
  }

  lemma OneAhead<T>(v: View<T>, t: Tid, n: nat)
    requires v.mem.Allocated()
    ensures Ahead(v, t, n + 1) == Ahead(Next(v, t), t, n)
  {
  }

  // ---------------------------------------------------------------- whole calls

  /** What a dequeue leaves behind that finds the two indices in one slot, or else takes what the
      slot of the read index holds. */
  function AfterDequeue<T>(mem: Memory<T>, h: History<T>, t: Tid): View<T>
    requires mem.Allocated()
  {
    var seen := h.(loaded := h.loaded[t := |h.taken|]);
    if mem.Slot(mem.lastWriteIdx) == mem.Slot(mem.readIdx) then View(mem, seen, Idle)
    else View(Dequeued(mem), seen.(taken := h.taken + [mem.queue[mem.Slot(mem.readIdx)]]), Idle)
  }

  /** A dequeue alone, with what it answers. When it finds nothing, the caller's variable keeps
      what it held. */
  lemma WholeDequeue<T>(v: View<T>, t: Tid)
    requires v.mem.Allocated() && v.l.DeqLoadRead?
    ensures Ahead(v, t, 6) == AfterDequeue(v.mem, v.h, t)
    ensures if v.mem.Slot(v.mem.lastWriteIdx) == v.mem.Slot(v.mem.readIdx)
            then Ahead(v, t, 2).l == DeqReturn(v.l.data, false)
            else Ahead(v, t, 5).l == DeqReturn(v.mem.queue[v.mem.Slot(v.mem.readIdx)], true)
  {
    if v.mem.Slot(v.mem.lastWriteIdx) == v.mem.Slot(v.mem.readIdx) {
      EmptyAlone(v, t);
      AheadSnoc(v, t, 2);
      IdleBy(v, t, 3, 6);
    } else {
      DequeueAlone(v, t);
      TakeAnswers(Next(Next(v, t), t), t);
      OneAhead(v, t, 4);
      OneAhead(Next(v, t), t, 3);
    }
  }

  /** Up to the return of a dequeue whose read index is current. */
  lemma TakeAnswers<T>(v: View<T>, t: Tid)
    requires v.mem.Allocated() && v.l.DeqCopy? && v.l.read == v.mem.readIdx
    ensures Ahead(v, t, 3).l == DeqReturn(v.mem.queue[v.mem.Slot(v.l.read)], true)
  {
    var head := v.mem.queue[v.mem.Slot(v.l.read)];
    var copied := v.(l := DeqTake(head, v.l.read));
    assert Next(v, t) == copied && Next(copied, t).l == DeqDiscount(head);
    OneAhead(v, t, 2);
    OneAhead(copied, t, 1);
    OneAhead(Next(copied, t), t, 0);
  }

  /** What an enqueue leaves behind that finds no room, or else writes the slot of the write index
      and moves both indices on. */
  function AfterEnqueue<T>(mem: Memory<T>, h: History<T>, t: Tid, value: T): View<T>
    requires mem.Allocated()
  {
    var seen := h.(loaded := h.loaded[t := |h.taken|]);
    if mem.Slot(Increment(mem.writeIdx)) == mem.Slot(mem.readIdx) then View(mem, seen, Idle)
    else
      View(mem.(queue := mem.queue[mem.Slot(mem.writeIdx) := value],
                writeIdx := Increment(mem.writeIdx),
                lastWriteIdx := Increment(mem.lastWriteIdx),
                length := Increment(mem.length)),
        seen.(claimed := h.claimed + [value], published := h.published + 1), Idle)
  }

  /** An enqueue alone, with what it answers; one step more if another claim is unpublished. */
  lemma WholeEnqueue<T>(v: View<T>, t: Tid)
    requires v.mem.Allocated() && v.l.EnqLoadRead?
    ensures Ahead(v, t, 8) == AfterEnqueue(v.mem, v.h, t, v.l.value)
    ensures if v.mem.Slot(Increment(v.mem.writeIdx)) == v.mem.Slot(v.mem.readIdx)
            then Ahead(v, t, 2).l == EnqReturn(false)
            else Ahead(v, t, if v.mem.writeIdx == v.mem.lastWriteIdx then 6 else 7).l == EnqReturn(true)
  {
    var w := Next(v, t);
    if v.mem.Slot(Increment(v.mem.writeIdx)) == v.mem.Slot(v.mem.readIdx) {
      RefusedAlone(w, t);
      OneAhead(v, t, 1);
      OneAhead(v, t, 2);
      IdleBy(v, t, 3, 8);
    } else if v.mem.writeIdx == v.mem.lastWriteIdx {
      ClaimAlone(w, t);
      OneAhead(v, t, 5);
      OneAhead(v, t, 6);
      IdleBy(v, t, 7, 8);
    } else {
      ClaimAstray(w, t);
      OneAhead(v, t, 6);
      OneAhead(v, t, 7);
    }
  }

  lemma RefusedAlone<T>(v: View<T>, t: Tid)
    requires v.mem.Allocated() && v.l.EnqLoadWrite? && v.mem.Slot(Increment(v.mem.writeIdx)) == v.mem.Slot(v.l.read)
    ensures Ahead(v, t, 1) == v.(l := EnqReturn(false)) && Ahead(v, t, 2) == v.(l := Idle)
  {
    OneAhead(v, t, 0);
    AheadSnoc(v, t, 1);
  }

  // ---------------------------------------------------------------- after a lost swap

  /** A dequeue whose swap fails, because the index has moved or for no reason, starts over with
      the indices as they are: alone it then takes the next element there is, or finds none. Until
      then the caller's variable holds what was copied in vain. */
  lemma LostTake<T>(mem: Memory<T>, h: History<T>, t: Tid, l: Local<T>, spurious: bool)
    requires mem.Allocated() && l.DeqTake? && (mem.readIdx != l.read || spurious)
    ensures var (mem', l') := Advance(mem, l, spurious);
      var v := View(mem', RecordStep(mem, h, t, l, spurious), l');
      && Ahead(v, t, 6) == AfterDequeue(mem, h, t)
      && if mem.Slot(mem.lastWriteIdx) == mem.Slot(mem.readIdx) then Ahead(v, t, 2).l == DeqReturn(l.data, false)
         else Ahead(v, t, 5).l == DeqReturn(mem.queue[mem.Slot(mem.readIdx)], true)
  {
    WholeDequeue(View(mem, h, DeqLoadRead(l.data)), t);
  }

  /** An enqueue whose claim fails starts over as well. */
  lemma LostClaim<T>(mem: Memory<T>, h: History<T>, t: Tid, l: Local<T>, spurious: bool)
    requires mem.Allocated() && l.EnqClaim? && (mem.writeIdx != l.write || spurious)
    ensures var (mem', l') := Advance(mem, l, spurious);
      var v := View(mem', RecordStep(mem, h, t, l, spurious), l');
      && Ahead(v, t, 8) == AfterEnqueue(mem, h, t, l.value)
      && (mem.Slot(Increment(mem.writeIdx)) == mem.Slot(mem.readIdx) ==> Ahead(v, t, 2).l == EnqReturn(false))
  {
    WholeEnqueue(View(mem, h, EnqLoadRead(l.value)), t);
  }

  /** An enqueue whose publication fails goes on with the index it observes, and gets through. */
  lemma LostPublish<T>(mem: Memory<T>, h: History<T>, t: Tid, l: Local<T>, spurious: bool)
    requires mem.Allocated() && l.EnqPublish? && (mem.lastWriteIdx != l.write || spurious)
    ensures var (mem', l') := Advance(mem, l, spurious);
      var v := View(mem', RecordStep(mem, h, t, l, spurious), l');
      && Ahead(v, t, 2).l == EnqReturn(true)
      && Ahead(v, t, 3)
           == View(mem.(lastWriteIdx := Increment(mem.lastWriteIdx), length := Increment(mem.length)),
                h.(published := h.published + 1), Idle)
  {
    PublishAlone(View(mem, h, EnqPublish(l.value, mem.lastWriteIdx)), t);
  }

  lemma PublishAlone<T>(v: View<T>, t: Tid)
    requires v.mem.Allocated() && v.l.EnqPublish? && v.l.write == v.mem.lastWriteIdx
    ensures Ahead(v, t, 2).l == EnqReturn(true)
    ensures Ahead(v, t, 3)
         == View(v.mem.(lastWriteIdx := Increment(v.mem.lastWriteIdx), length := Increment(v.mem.length)),
              v.h.(published := v.h.published + 1), Idle)
  {
    var published := Next(v, t);
    OneAhead(v, t, 1);
    OneAhead(v, t, 2);
    OneAhead(published, t, 0);
    AheadSnoc(published, t, 1);
  }

  // ---------------------------------------------------------------- from anywhere

  lemma DequeueReturns<T>(v: View<T>, t: Tid)
    requires v.mem.Allocated() && Dequeuing(v.l)
    ensures Ahead(v, t, 9).l.Idle?
  {
    var w := Next(v, t);
    match v.l
    case DeqLoadRead(_) =>
      WholeDequeue(v, t);
      IdleBy(v, t, 6, 9);
    case DeqLoadLast(_, _) =>
      OneAhead(v, t, 8);
      if w.l.DeqCopy? {
        CopyReturns(w, t);
        IdleBy(w, t, 8, 8);
      } else {
        ReturnReturns(w, t, 8);
      }
    case DeqCopy(_, _) =>
      CopyReturns(v, t);
      IdleBy(v, t, 8, 9);
    case DeqTake(_, _) =>
      TakeReturns(v, t);
      IdleBy(v, t, 7, 9);
    case DeqDiscount(_) =>
      OneAhead(v, t, 8);
      ReturnReturns(w, t, 8);
    case DeqReturn(_, _) => ReturnReturns(v, t, 9);
  }

  lemma ReturnReturns<T>(v: View<T>, t: Tid, n: nat)
    requires v.mem.Allocated() && (v.l.DeqReturn? || v.l.EnqReturn?) && n >= 1
    ensures Ahead(v, t, n) == v.(l := Idle)
  {
    OneAhead(v, t, 0);
    IdleBy(v, t, 1, n);
  }

  lemma TakeReturns<T>(v: View<T>, t: Tid)
    requires v.mem.Allocated() && v.l.DeqTake?
    ensures Ahead(v, t, 7).l.Idle?
  {
    var w := Next(v, t);
    OneAhead(v, t, 6);
    if w.l.DeqLoadRead? {
      WholeDequeue(w, t);
    } else {
      OneAhead(w, t, 5);
      ReturnReturns(Next(w, t), t, 5);
    }
  }

  lemma CopyReturns<T>(v: View<T>, t: Tid)
    requires v.mem.Allocated() && v.l.DeqCopy?
    ensures Ahead(v, t, 8).l.Idle?
  {
    OneAhead(v, t, 7);
    TakeReturns(Next(v, t), t);
  }

  lemma EnqueueReturns<T>(v: View<T>, t: Tid)
    requires v.mem.Allocated() && Enqueuing(v.l)
    ensures Ahead(v, t, 9).l.Idle?
  {
    var w := Next(v, t);
    OneAhead(v, t, 8);
    match v.l
    case EnqLoadRead(_) =>
      WholeEnqueue(v, t);
      IdleBy(v, t, 8, 9);
    case EnqLoadWrite(_, _) =>
      if w.l.EnqClaim? {
        assert w.l.write == w.mem.writeIdx;
        OneAhead(w, t, 7);
        StoreReturns(Next(w, t), t);
        IdleBy(Next(w, t), t, 5, 7);
      } else {
        ReturnReturns(w, t, 8);
      }
    case EnqClaim(_, _) =>
      if w.l.EnqLoadRead? {
        WholeEnqueue(w, t);
      } else {
        StoreReturns(w, t);
        IdleBy(w, t, 5, 8);
      }
    case EnqStore(_, _) =>
      StoreReturns(v, t);
      IdleBy(v, t, 5, 9);
    case EnqPublish(_, _) =>
      PublishReturns(v, t);
      IdleBy(v, t, 4, 9);
    case EnqCount => ReturnReturns(w, t, 8);
    case EnqReturn(_) => ReturnReturns(v, t, 9);
  }

  lemma PublishReturns<T>(v: View<T>, t: Tid)
    requires v.mem.Allocated() && v.l.EnqPublish?
    ensures Ahead(v, t, 4).l.Idle?
  {
    if v.l.write == v.mem.lastWriteIdx {
      PublishAlone(v, t);
      IdleBy(v, t, 3, 4);
    } else {
      OneAhead(v, t, 3);
      LostPublish(v.mem, v.h, t, v.l, false);
    }
  }

  lemma StoreReturns<T>(v: View<T>, t: Tid)
    requires v.mem.Allocated() && v.l.EnqStore?
    ensures Ahead(v, t, 5).l.Idle?
  {
    OneAhead(v, t, 4);
    PublishReturns(Next(v, t), t);
  }

  /** From every state whatever, with any producers and consumers stopped anywhere, nine steps of
      a thread bring it out of its call. */
  lemma AnyoneReturns<T>(x: Traced<T>, t: Tid)
    requires x.m.mem.Allocated() && t in x.m.threads
    ensures var y := RunTraced(x, Steps(t, 9));
      t in y.m.threads && y.m.threads[t].Idle?
  {
    var v := Look(x, x.m.threads[t]);
    AloneRun(x, t, 9);
    if v.l.Idle? {
      IdleStays(v, t, 9);
    } else if Dequeuing(v.l) {
      DequeueReturns(v, t);
    } else {
      EnqueueReturns(v, t);
    }
  }
}
