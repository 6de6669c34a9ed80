/** The abstract first-in-first-out queue of bounded capacity that both queues refine. */
module BoundedFifo {

  datatype Op<T> = Enq(value: T) | Deq

  datatype Resp<T> = Accepted | Full | Got(value: T) | Nothing

  function Apply<T>(queue: seq<T>, capacity: nat, op: Op<T>): (seq<T>, Resp<T>) {
    match op
    case Enq(v) => if |queue| < capacity then (queue + [v], Accepted) else (queue, Full)
    case Deq => if queue == [] then (queue, Nothing) else (queue[1..], Got(queue[0]))
  }

  /** The queue and the answers after a list of operations. */
  function Replay<T>(queue: seq<T>, capacity: nat, ops: seq<Op<T>>): (r: (seq<T>, seq<Resp<T>>))
    ensures |r.1| == |ops|
  {
    if ops == [] then (queue, [])
    else
      var (q, answers) := Replay(queue, capacity, ops[..|ops| - 1]);
      var (q', answer) := Apply(q, capacity, ops[|ops| - 1]);
      (q', answers + [answer])
  }

  /** The values whose enqueue was accepted, in order. */
  function AcceptedValues<T>(ops: seq<Op<T>>, answers: seq<Resp<T>>): seq<T>
    requires |ops| == |answers|
  {
    if ops == [] then []
    else
      var n := |ops| - 1;
      AcceptedValues(ops[..n], answers[..n])
      + (if ops[n].Enq? && answers[n].Accepted? then [ops[n].value] else [])
  }

  /** The values handed out, in order. */
  function GotValues<T>(answers: seq<Resp<T>>): seq<T> {
    if answers == [] then []
    else
      var n := |answers| - 1;
      GotValues(answers[..n]) + (if answers[n].Got? then [answers[n].value] else [])
  }

  /** Nothing is lost, duplicated or reordered: what was there, followed by what was
      accepted, is what was handed out followed by what is left; and the bound is kept. */
  lemma {:induction false} ReplayConserves<T>(queue: seq<T>, capacity: nat, ops: seq<Op<T>>)
    requires |queue| <= capacity
    ensures var (left, answers) := Replay(queue, capacity, ops);
      && queue + AcceptedValues(ops, answers) == GotValues(answers) + left
      && |left| <= capacity
  {
    if ops == [] {
      assert queue + [] == [] + queue;
    } else {
      var n := |ops| - 1;
      ReplayConserves(queue, capacity, ops[..n]);
      var (q, answers) := Replay(queue, capacity, ops[..n]);
      var (q', answer) := Apply(q, capacity, ops[n]);
      var all := answers + [answer];
      assert all[..n] == answers;
      var accepted, got := AcceptedValues(ops[..n], answers), GotValues(answers);
      assert queue + accepted == got + q;
      match ops[n]
      case Enq(v) =>
        assert GotValues(all) == got + [] == got;
        if answer.Accepted? {
          assert AcceptedValues(ops, all) == accepted + [v];
          assert queue + (accepted + [v]) == (queue + accepted) + [v] == got + (q + [v]);
        } else {
          assert AcceptedValues(ops, all) == accepted + [] == accepted;
        }
      case Deq =>
        assert AcceptedValues(ops, all) == accepted + [] == accepted;
        if answer.Got? {
          assert GotValues(all) == got + [q[0]];
          assert got + q == (got + [q[0]]) + q[1..];
        } else {
          assert GotValues(all) == got + [] == got;
        }
    }
  }
}
