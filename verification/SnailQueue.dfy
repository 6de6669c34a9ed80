/** A ring buffer with one spare cell, and its traversals from either end. */
module SnailQueue {
  import opened BoundedFifo
  import opened Bits
  import opened Widths

  const DEFAULT_CAPACITY: Uint16 := 256

  /** The number of cells for a requested capacity. */
  function Cells(requested: Uint16): Uint16 {
    ToUint16((if requested == 0 then DEFAULT_CAPACITY else requested) + 1)
  }

  /** The index after `i` in a ring of `n` cells. */
  function Next(i: nat, n: nat): (r: nat)
    requires i < n
    ensures r < n
  {
    if i + 1 == n then 0 else i + 1
  }

  /** The index before `i`. */
  function Before(i: nat, n: nat): (r: nat)
    requires i < n
    ensures r < n && Next(r, n) == i
  {
    if i == 0 then n - 1 else i - 1
  }

  /** How far it is from `head` forward to `tail`. */
  function Distance(head: nat, tail: nat, n: nat): (r: nat)
    requires head < n && tail < n
    ensures r < n
  {
    if head <= tail then tail - head else n - head + tail
  }

  /** The elements from `head` up to `tail` in a ring. */
  function Ring<T>(cells: seq<T>, head: nat, tail: nat): seq<T>
    requires head < |cells| && tail < |cells|
    decreases Distance(head, tail, |cells|)
  {
    if head == tail then [] else [cells[head]] + Ring(cells, Next(head, |cells|), tail)
  }

  lemma {:induction false} RingPush<T>(cells: seq<T>, head: nat, tail: nat, x: T)
    requires head < |cells| && tail < |cells| && Next(tail, |cells|) != head
    ensures Ring(cells[tail := x], head, Next(tail, |cells|)) == Ring(cells, head, tail) + [x]
    decreases Distance(head, tail, |cells|)
  {
    var next := Next(tail, |cells|);
    if head == tail {
      assert Ring(cells[tail := x], next, next) == [];
    } else {
      RingPush(cells, Next(head, |cells|), tail, x);
    }
  }

  lemma {:induction false} RingPopBack<T>(cells: seq<T>, head: nat, tail: nat)
    requires head < |cells| && tail < |cells| && head != tail
    ensures Ring(cells, head, tail) == Ring(cells, head, Before(tail, |cells|)) + [cells[Before(tail, |cells|)]]
    decreases Distance(head, tail, |cells|)
  {
    if head == Before(tail, |cells|) {
      assert Ring(cells, tail, tail) == [];
    } else {
      RingPopBack(cells, Next(head, |cells|), tail);
    }
  }

  /** The index after `i` as it is computed: an add in a uint16, then a remainder. */
  function Following(i: Uint16, n: Uint16): (r: Uint16)
    requires i < n
    ensures r == Next(i, n)
  {
    ModUnique(i + 1, n, if i + 1 == n then 1 else 0, Next(i, n));
    ToUint16(i + 1) % n
  }

  /** The add that makes room for the spare cell wraps for one request only, and then there
      are no cells at all. */
  lemma CellsExact(requested: Uint16)
    ensures Cells(requested) != 0 <==> requested != 0xFFFF
    ensures requested != 0xFFFF ==> Cells(requested) - 1 == if requested == 0 then 256 else requested
  {
  }

  lemma {:induction false} RingLength<T>(cells: seq<T>, head: nat, tail: nat)
    requires head < |cells| && tail < |cells|
    ensures |Ring(cells, head, tail)| == Distance(head, tail, |cells|)
    decreases Distance(head, tail, |cells|)
  {
    if head != tail {
      RingLength(cells, Next(head, |cells|), tail);
    }
  }

  lemma DistanceIs(head: nat, tail: nat, n: nat)
    requires head < n && tail < n
    ensures Distance(head, tail, n) == (tail - head) % n
    ensures Distance(head, tail, n) == 0 <==> head == tail
    ensures Distance(head, tail, n) == n - 1 <==> Next(tail, n) == head
  {
    ModUnique(tail - head, n, if head <= tail then 0 else -1, Distance(head, tail, n));
  }

  function Reversed<T>(s: seq<T>): seq<T> {
    if s == [] then [] else [s[|s| - 1]] + Reversed(s[..|s| - 1])
  }

  lemma {:induction false} ReversedLength<T>(s: seq<T>)
    ensures |Reversed(s)| == |s|
  {
    if s != [] {
      ReversedLength(s[..|s| - 1]);
    }
  }

  lemma {:induction false} ReversedAt<T>(s: seq<T>, i: nat)
    requires i < |s|
    ensures |Reversed(s)| == |s| && Reversed(s)[i] == s[|s| - 1 - i]
  {
    ReversedLength(s);
    if i > 0 {
      ReversedAt(s[..|s| - 1], i - 1);
    }
  }

  function Take<T>(s: seq<T>, limit: nat): seq<T> {
    if limit < |s| then s[..limit] else s
  }

  /** How many elements a traversal may visit: a limit of 0 means as many as there can be. */
  function Limit(limit: Uint16): Uint16 { if limit == 0 then 0xFFFF else limit }

  /** The cell that an index below zero stands for. */
  function Wrapped(i: int, n: nat): int { if i < 0 then n + i else i }

  /** Where a reverse traversal stands: `tailIdx` is one past the next element to visit, and
      below zero once the traversal has gone round the start of the cells. */
  ghost predicate Reversing<T>(cells: seq<T>, head: nat, tailIdx: int, whole: seq<T>, visited: seq<T>, left: nat) {
    var end := Wrapped(tailIdx, |cells|);
    && head < |cells| && 0 <= end < |cells| && (tailIdx < 0 ==> head <= end)
    && left == Distance(head, end, |cells|)
    && Reversed(whole) == visited + Reversed(Ring(cells, head, end))
    && |whole| == |visited| + left
  }

  lemma ReverseStep<T>(cells: seq<T>, head: nat, tailIdx: int, whole: seq<T>, visited: seq<T>, left: nat)
    requires Reversing(cells, head, tailIdx, whole, visited, left) && left > 0
    ensures var last := Wrapped(tailIdx - 1, |cells|);
      && 0 <= last < |cells|
      && Reversing(cells, head, tailIdx - 1, whole, visited + [cells[last]], left - 1)
  {
    var end := Wrapped(tailIdx, |cells|);
    RingPopBack(cells, head, end);
    var ring := Ring(cells, head, Before(end, |cells|));
    assert (ring + [cells[Before(end, |cells|)]])[..|ring|] == ring;
  }

  lemma ReversedIs<T>(s: seq<T>)
    ensures |Reversed(s)| == |s| && forall i | 0 <= i < |s| :: Reversed(s)[i] == s[|s| - 1 - i]
  {
    ReversedLength(s);
    forall i | 0 <= i < |s|
      ensures Reversed(s)[i] == s[|s| - 1 - i]
    {
      ReversedAt(s, i);
    }
  }

  lemma FromTheBack<T>(visited: seq<T>, whole: seq<T>, back: seq<T>, limit: nat)
    requires |back| == |whole| && forall i | 0 <= i < |whole| :: back[i] == whole[|whole| - 1 - i]
    requires visited <= back && (|visited| == limit || (|visited| <= limit && visited == back))
    ensures visited == Take(back, limit) && (|whole| <= limit ==> visited == back)
    ensures |visited| == if |whole| <= limit then |whole| else limit
    ensures forall i | 0 <= i < |visited| :: visited[i] == whole[|whole| - 1 - i]
  {
  }

  /** What was visited, when the limit is used up or nothing is left. */
  lemma ReverseEnds<T>(
    cells: seq<T>, head: nat, tailIdx: int, whole: seq<T>, visited: seq<T>, left: nat, limit: nat)
    requires Reversing(cells, head, tailIdx, whole, visited, left)
    requires |visited| == limit || (|visited| <= limit && left == 0)
    ensures visited == Take(Reversed(whole), limit) && (|whole| <= limit ==> visited == Reversed(whole))
    ensures |visited| == if |whole| <= limit then |whole| else limit
    ensures forall i | 0 <= i < |visited| :: visited[i] == whole[|whole| - 1 - i]
  {
    var ring := Ring(cells, head, Wrapped(tailIdx, |cells|));
    RingLength(cells, head, Wrapped(tailIdx, |cells|));
    ReversedLength(ring);
    ReversedIs(whole);
    FromTheBack(visited, whole, Reversed(whole), limit);
  }

  lemma Pushed<T>(cells: seq<T>, head: nat, tail: nat, x: T)
    requires head < |cells| && tail < |cells| && Next(tail, |cells|) != head
    ensures var ring := Ring(cells, head, tail);
      && |ring| < |cells| - 1
      && Ring(cells[tail := x], head, Next(tail, |cells|)) == ring + [x]
      && (Ring(cells[tail := x], head, Next(tail, |cells|)), Resp<T>.Accepted)
         == BoundedFifo.Apply(ring, |cells| - 1, Enq(x))
  {
    RingLength(cells, head, tail);
    RingPush(cells, head, tail, x);
  }

  lemma Popped<T>(cells: seq<T>, head: nat, tail: nat)
    requires head < |cells| && tail < |cells| && head != tail
    ensures var ring := Ring(cells, head, tail);
      && ring != []
      && (Ring(cells, Next(head, |cells|), tail), Got(cells[head])) == BoundedFifo.Apply(ring, |cells| - 1, Deq)
  {
  }

  class SnailQueue<T(0)> {
    var head: Uint16
    var tail: Uint16
    var size: Uint16
    const capacity: Uint16
    const elements: array<T>

    ghost predicate Valid()
      reads this, elements
    {
      && 0 < capacity && elements.Length == capacity && head < capacity && tail < capacity
      && size == |Contents()|
    }

    /** The queued values, oldest first. */
    function Contents(): seq<T>
      requires head < elements.Length && tail < elements.Length
      reads this, elements
    {
      Ring(elements[..], head, tail)
    }

    constructor (requested: Uint16)
      ensures capacity == Cells(requested) && elements.Length == capacity && fresh(elements)
      ensures requested != 0xFFFF ==> Valid() && Contents() == []
    {
      var capacity: Uint16 := requested;
      if capacity == 0 {
        capacity := DEFAULT_CAPACITY;
      }
      capacity := ToUint16(capacity + 1);
      CellsExact(requested);
      head, tail, size := 0, 0, 0;
      this.capacity := capacity;
      elements := new T[capacity];
    }

    predicate IsEmpty()
      reads this
    {
      head == tail
    }

    predicate IsFull()
      requires tail < capacity
      reads this
    {
      Following(tail, capacity) == head
    }

    /** The two tests, and the size, in terms of the contents. */
    lemma EmptyFull()
      requires Valid()
      ensures IsEmpty() <==> Contents() == []
      ensures IsFull() <==> |Contents()| == capacity - 1
      ensures |Contents()| <= capacity - 1
    {
      RingLength(elements[..], head, tail);
      DistanceIs(head, tail, capacity);
    }

    lemma SizeIs()
      requires Valid()
      ensures size == (tail - head) % capacity
    {
      RingLength(elements[..], head, tail);
      DistanceIs(head, tail, capacity);
    }

    method Enqueue(obj: T) returns (ok: bool)
      requires Valid()
      modifies this`tail, this`size, elements
      ensures Valid()
      ensures (Contents(), if ok then Accepted else Full) == BoundedFifo.Apply(old(Contents()), capacity - 1, Enq(obj))
      ensures ok <==> |old(Contents())| < capacity - 1
      ensures Contents() == if ok then old(Contents()) + [obj] else old(Contents())
    {
      EmptyFull();
      if IsFull() {
        return false;
      }
      ghost var cells := elements[..];
      Pushed(cells, head, tail, obj);
      elements[tail] := obj;
      assert elements[..] == cells[tail := obj];
      tail := Following(tail, capacity);
      size := ToUint16(size + 1);
      return true;
    }

    /** An absent object stands for the nil that comes with a failure. */
    method Dequeue() returns (obj: Resp<T>, result: bool)
      requires Valid()
      modifies this`head, this`size
      ensures Valid()
      ensures (Contents(), obj) == BoundedFifo.Apply(old(Contents()), capacity - 1, Deq)
      ensures result <==> old(Contents()) != []
      ensures result ==> obj == Got(old(Contents())[0]) && Contents() == old(Contents())[1..]
      ensures !result ==> obj == Nothing && Contents() == []
    {
      obj, result := Nothing, false;
      ghost var cells := elements[..];
      if !IsEmpty() {
        Popped(cells, head, tail);
        obj := Got(elements[head]);
        head := Following(head, capacity);
        size := ToUint16(size - 1);
        result := true;
        assert elements[..] == cells && Contents() == Ring(cells, head, tail);
      }
    }

    /** The values the callback is given, in order. */
    method Traversal(limit: Uint16) returns (visited: seq<T>)
      requires Valid()
      ensures visited == Take(Contents(), Limit(limit))
      ensures limit == 0 ==> visited == Contents()
      ensures limit != 0 ==> visited == if limit < |Contents()| then Contents()[..limit] else Contents()
    {
      ghost var cells := elements[..];
      RingLength(cells, head, tail);
      var left: Uint16 := limit;
      if left == 0 {
        left := 0xFFFF;
      }
      visited := [];
      var i: Uint16 := head;
      while i != tail
        invariant i < capacity && left + |visited| == Limit(limit)
        invariant Contents() == visited + Ring(cells, i, tail)
        decreases left
      {
        if left == 0 {
          break;
        } else {
          left := left - 1;
          visited := visited + [elements[i]];
        }
        i := Following(i, capacity);
      }
    }

    /** The values the callback is given, in order. */
    method ReverseTraversal(limit: Uint16) returns (visited: seq<T>)
      requires Valid()
      ensures visited == Take(Reversed(Contents()), Limit(limit))
      ensures limit == 0 ==> visited == Reversed(Contents())
      ensures |visited| == if limit == 0 || |Contents()| <= limit then |Contents()| else limit
      ensures forall i | 0 <= i < |visited| :: visited[i] == Contents()[|Contents()| - 1 - i]
    {
      ghost var cells := elements[..];
      RingLength(cells, head, tail);
      var capacity: int := this.capacity;
      var tailIdx: int := tail;
      var left: Uint16 := limit;
      if left == 0 {
        left := 0xFFFF;
      }
      visited := [];
      var currSize := size;
      ghost var whole := Contents();
      while currSize != 0
        invariant left + |visited| == Limit(limit)
        invariant Reversing(cells, head, tailIdx, whole, visited, currSize)
        decreases currSize
      {
        ReverseStep(cells, head, tailIdx, whole, visited, currSize);
        if left == 0 {
          break;
        } else {
          left := left - 1;
          tailIdx := tailIdx - 1;
          if tailIdx < 0 {
            visited := visited + [elements[capacity + tailIdx]];
          } else {
            visited := visited + [elements[tailIdx]];
          }
        }
        currSize := currSize - 1;
      }
      ReverseEnds(cells, head, tailIdx, whole, visited, currSize, Limit(limit));
    }

    /** Any run of operations is a run of the abstract queue of the requested capacity. */
    method Run(ops: seq<Op<T>>) returns (answers: seq<Resp<T>>)
      requires Valid()
      modifies this`head, this`tail, this`size, elements
      ensures Valid()
      ensures (Contents(), answers) == Replay(old(Contents()), capacity - 1, ops)
    {
      answers := [];
      for i := 0 to |ops|
        invariant Valid()
        invariant (Contents(), answers) == Replay(old(Contents()), capacity - 1, ops[..i])
      {
        assert ops[..i + 1][..i] == ops[..i];
        match ops[i] {
          case Enq(obj) =>
            var ok := Enqueue(obj);
            answers := answers + [if ok then Accepted else Full];
          case Deq =>
            var obj, _ := Dequeue();
            answers := answers + [obj];
        }
      }
      assert ops[..|ops|] == ops;
    }
  }
}
