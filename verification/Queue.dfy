/**
The head/tail/num linked queue of util.c, which refines a sequence, and what follows for
the order of hand-offs through it.
 */
module Queue {
  import opened Options

  class QueueEntry<T> {
    var next: QueueEntry?<T>
    const data: T

    constructor (data: T)
      ensures this.data == data && next == null
    {
      this.data := data;
      next := null;
    }
  }

  ghost function After<T>(spine: seq<QueueEntry<T>>, i: nat): QueueEntry?<T> {
    if i + 1 < |spine| then spine[i + 1] else null
  }

  ghost function DataOf<T>(spine: seq<QueueEntry<T>>): seq<T> {
    seq(|spine|, i requires 0 <= i < |spine| => spine[i].data)
  }

  class QueueHead<T> {
    var head: QueueEntry?<T>
    var tail: QueueEntry?<T>
    var num: nat
    ghost var spine: seq<QueueEntry<T>>

    /** Head, tail, count and links all describe the same chain of distinct entries. */
    ghost predicate Valid()
      reads this, spine
    {
      && num == |spine|
      && head == (if spine == [] then null else spine[0])
      && tail == (if spine == [] then null else spine[|spine| - 1])
      && (forall i, j :: 0 <= i < j < |spine| ==> spine[i] != spine[j])
      && (forall i {:trigger spine[i].next} :: 0 <= i < |spine| ==> spine[i].next == After(spine, i))
    }

    ghost function Contents(): seq<T>
      reads this
    {
      DataOf(spine)
    }

    /** queue_init. */
    constructor ()
      ensures Valid() && Contents() == [] && spine == []
    {
      head, tail, num, spine := null, null, 0, [];
    }

    /** queue_push; allocation succeeds. */
    method Push(data: T)
      requires Valid()
      modifies this, spine
      ensures Valid() && Contents() == old(Contents()) + [data]
      ensures fresh(set e | e in spine && e !in old(spine))
    {
      var entry := new QueueEntry(data);
      if tail != null {
        tail.next := entry;
      }
      tail := entry;
      if head == null {
        head := entry;
      }
      num := num + 1;
      spine := spine + [entry];
      assert DataOf(spine) == DataOf(old(spine)) + [data];
    }

    /** queue_pop: NULL on an empty queue. */
    method Pop() returns (x: Option<T>)
      requires Valid()
      modifies this
      ensures Valid()
      ensures if old(Contents()) == [] then x == None && Contents() == []
              else x == Some(old(Contents())[0]) && Contents() == old(Contents())[1..]
    {
      if head == null {
        return None;
      }
      var entry := head;
      assert spine[0].next == After(spine, 0);
      head := entry.next;
      if head == null {
        tail := null;
      }
      num := num - 1;
      spine := spine[1..];
      assert DataOf(spine) == DataOf(old(spine))[1..];
      return Some(entry.data);
    }

    /** queue_peek. */
    method Peek() returns (x: Option<T>)
      requires Valid()
      ensures x == if Contents() == [] then None else Some(Contents()[0])
    {
      x := if head == null then None else Some(head.data);
    }

    /** queue_foreach: the callback sees every element once, front to back. */
    method Foreach() returns (seen: seq<T>)
      requires Valid()
      ensures seen == Contents()
    {
      seen := [];
      var entry := head;
      ghost var i := 0;
      while entry != null
        invariant 0 <= i <= |spine| && seen == Contents()[..i]
        invariant entry == if i < |spine| then spine[i] else null
        decreases |spine| - i
      {
        seen := seen + [entry.data];
        assert spine[i].next == After(spine, i);
        entry := entry.next;
        i := i + 1;
      }
    }
  }

  // ---- order of hand-offs

  datatype Op<T> = PushOp(x: T) | PopOp

  datatype History<T> = History(queue: seq<T>, pushed: seq<T>, popped: seq<T>)

  /** A run of pushes and pops from an empty queue; a pop of an empty queue yields nothing. */
  function Run<T>(ops: seq<Op<T>>): History<T> {
    if ops == [] then History([], [], [])
    else
      var h := Run(ops[..|ops| - 1]);
      match ops[|ops| - 1]
      case PushOp(x) => History(h.queue + [x], h.pushed + [x], h.popped)
      case PopOp => if h.queue == [] then h else History(h.queue[1..], h.pushed, h.popped + [h.queue[0]])
  }

  /** Whatever the interleaving: what came out followed by what is waiting is what went in. */
  lemma {:induction false} FirstInFirstOut<T>(ops: seq<Op<T>>)
    ensures var h := Run(ops); h.popped + h.queue == h.pushed
  {
    if ops != [] {
      var h := Run(ops[..|ops| - 1]);
      FirstInFirstOut(ops[..|ops| - 1]);
      match ops[|ops| - 1]
      case PushOp(x) =>
        assert h.popped + (h.queue + [x]) == (h.popped + h.queue) + [x];
      case PopOp =>
        if h.queue != [] {
          assert h.queue == [h.queue[0]] + h.queue[1..];
          assert (h.popped + [h.queue[0]]) + h.queue[1..] == h.popped + h.queue;
        }
    }
  }
}
