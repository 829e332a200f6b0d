/**
 The fixed ring queue (lethe-utils/queue.c).  Entries are task numbers; 0 is NULL.
 push_queue takes head + 1 == tail for "full", which is so when the queue holds one
 entry, and does not notice when it holds as many as fit.
 */
module RingQueue {
  const CAPACITY: nat := 10

  /** The entries from head up to tail, around the end of the buffer. */
  function Entries(inner: seq<nat>, head: nat, tail: nat): (s: seq<nat>)
    requires |inner| == CAPACITY && head < CAPACITY && tail < CAPACITY
    ensures |s| < CAPACITY
  {
    if head <= tail then inner[head..tail] else inner[head..] + inner[..tail]
  }

  function Next(i: nat): (j: nat)
    requires i < CAPACITY
    ensures j < CAPACITY
  {
    (i + 1) % CAPACITY
  }

  /** The test that push_queue makes is true just when there is one entry. */
  lemma FullMeansOne(inner: seq<nat>, head: nat, tail: nat)
    requires |inner| == CAPACITY && head < CAPACITY && tail < CAPACITY
    ensures Next(head) == tail <==> |Entries(inner, head, tail)| == 1
    ensures Next(tail) == head <==> |Entries(inner, head, tail)| == CAPACITY - 1
    ensures head == tail <==> Entries(inner, head, tail) == []
  {
    NextIs(head);
    NextIs(tail);
    assert |Entries(inner, head, tail)| == if head <= tail then tail - head else CAPACITY - head + tail;
  }

  lemma NextIs(i: nat)
    requires i < CAPACITY
    ensures Next(i) == if i == CAPACITY - 1 then 0 else i + 1
  {
  }

  /** What push_queue does: nothing with one entry, lose all with nine. */
  function Push(s: seq<nat>, x: nat): seq<nat> {
    if |s| == 1 then s else if |s| == CAPACITY - 1 then [] else s + [x]
  }

  /** So it appends just when the queue has neither one entry nor nine. */
  lemma PushAppendsIff(s: seq<nat>, x: nat)
    ensures Push(s, x) == s + [x] <==> |s| != 1 && |s| != CAPACITY - 1
  {
    assert |s + [x]| == |s| + 1;
  }

  /** pop_queue: the first entry that is not NULL, and what is left behind it. */
  function Pop(s: seq<nat>): (r: (nat, seq<nat>)) {
    if s == [] then (0, []) else if s[0] == 0 then Pop(s[1..]) else (s[0], s[1..])
  }

  datatype Call = PushCall(x: nat) | PopCall | RotateCall

  function Run(s: seq<nat>, calls: seq<Call>): seq<nat>
    decreases |calls|
  {
    if calls == [] then s
    else
      var t := match calls[0]
        case PushCall(x) => Push(s, x)
        case PopCall => Pop(s).1
        case RotateCall => Push(Pop(s).1, Pop(s).0);
      Run(t, calls[1..])
  }

  /** Starting from an empty queue no sequence of calls gets two entries in. */
  lemma {:induction false} NeverTwo(s: seq<nat>, calls: seq<Call>)
    requires |s| <= 1
    ensures |Run(s, calls)| <= 1
    decreases |calls|
  {
    if calls != [] {
      assert |Pop(s).1| == 0 by { if |s| == 1 { assert s[1..] == []; } }
      match calls[0] {
        case PushCall(x) => NeverTwo(Push(s, x), calls[1..]);
        case PopCall => NeverTwo(Pop(s).1, calls[1..]);
        case RotateCall => NeverTwo(Push(Pop(s).1, Pop(s).0), calls[1..]);
      }
    }
  }

  lemma AfterPush(inner: seq<nat>, head: nat, tail: nat, x: nat)
    requires |inner| == CAPACITY && head < CAPACITY && tail < CAPACITY && Next(head) != tail
    ensures Entries(inner[tail := x], head, Next(tail)) == Push(Entries(inner, head, tail), x)
  {
    var s, t := Entries(inner, head, tail), Entries(inner[tail := x], head, Next(tail));
    FullMeansOne(inner, head, tail);
    if |s| < CAPACITY - 1 { assert t == s + [x]; }
  }

  lemma AfterPop(inner: seq<nat>, head: nat, tail: nat)
    requires |inner| == CAPACITY && head < CAPACITY && tail < CAPACITY && head != tail
    ensures var s := Entries(inner, head, tail); s != [] && s[0] == inner[head] && s[1..] == Entries(inner, Next(head), tail)
  {
    var s, t := Entries(inner, head, tail), Entries(inner, Next(head), tail);
    assert |s| == |t| + 1;
  }

  class Queue {
    const inner: array<nat>
    var head: nat
    var tail: nat

    ghost predicate Valid()
      reads this
    {
      inner.Length == CAPACITY && head < CAPACITY && tail < CAPACITY
    }

    ghost function Contents(): (s: seq<nat>)
      requires Valid()
      reads this, inner
    {
      Entries(inner[..], head, tail)
    }

    /** new_queue. */
    constructor ()
      ensures Valid() && fresh(inner) && Contents() == []
    {
      inner := new nat[CAPACITY](_ => 0);
      head, tail := 0, 0;
    }

    /** push_queue. */
    method PushQueue(task: nat)
      requires Valid()
      modifies this, inner
      ensures Valid() && Contents() == Push(old(Contents()), task)
      ensures Contents() == old(Contents()) + [task] <==> |old(Contents())| != 1 && |old(Contents())| != CAPACITY - 1
    {
      PushAppendsIff(Contents(), task);
      FullMeansOne(inner[..], head, tail);
      if Next(head) == tail { return; }
      AfterPush(inner[..], head, tail, task);
      inner[tail] := task;
      tail := Next(tail);
    }

    /** pop_queue. */
    method PopQueue() returns (task: nat)
      requires Valid()
      modifies this
      ensures Valid() && (task, Contents()) == Pop(old(Contents()))
      decreases |Contents()|
    {
      if head == tail { return 0; }
      AfterPop(inner[..], head, tail);
      task := inner[head];
      head := Next(head);
      if task == 0 { task := PopQueue(); }
    }

    /** rotate_queue: an empty queue gets NULL for an entry. */
    method RotateQueue() returns (task: nat)
      requires Valid()
      modifies this, inner
      ensures Valid() && task == Pop(old(Contents())).0
      ensures Contents() == Push(Pop(old(Contents())).1, task)
    {
      task := PopQueue();
      PushQueue(task);
    }
  }
}
