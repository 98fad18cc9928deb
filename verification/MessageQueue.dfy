/** The ring buffer behind a service's message queue (skynet_mq.c): it wraps, doubles when full,
    and yet is one unbounded queue. Each method is one section under the queue's lock. */
module MessageQueue {

  import opened Basics

  const DEFAULT_QUEUE_SIZE := 64
  const MQ_OVERLOAD := 1024

  lemma ModOnce(x: nat, c: nat)
    requires c > 0 && x < 2 * c
    ensures x % c == if x < c then x else x - c
  {
    var q, r := x / c, x % c;
    assert x == c * q + r;
    AtMostOnce(c, q, r, x);
  }

  lemma AtMostOnce(c: nat, q: nat, r: nat, x: nat)
    requires x == c * q + r && r < c && x < 2 * c
    ensures r == if x < c then x else x - c
  {
    assert c * q == c * 2 + c * (q - 2);
    Product(c, q - 2);
  }

  lemma Product(a: int, b: int)
    ensures a >= 0 && b >= 0 ==> a * b >= 0
  {
  }

  /** What a queue is, its ring apart. */
  datatype Queue<T> = Queue(msgs: seq<T>, inGlobal: bool, release: bool)

  /** It is to be linked when a message arrives or when it is marked. */
  predicate Outside<T>(q: Queue<T>) { !q.inGlobal }

  function Pushed<T>(q: Queue<T>, message: T): Queue<T> { q.(msgs := q.msgs + [message], inGlobal := true) }

  function Popped<T>(q: Queue<T>): Queue<T>
  {
    if q.msgs == [] then q.(inGlobal := false) else q.(msgs := q.msgs[1..])
  }

  function Marked<T>(q: Queue<T>): Queue<T> { q.(release := true) }

  /** A full ring, copied to the front of an array twice as large. */
  method Unrolled<T(0)>(queue: array<T>, head: nat) returns (newQueue: array<T>)
    requires head < queue.Length
    ensures fresh(newQueue) && newQueue.Length == 2 * queue.Length
    ensures newQueue[..queue.Length] == queue[head..] + queue[..head]
  {
    var cap := queue.Length;
    newQueue := new T[cap * 2];
    var i := 0;
    while i < cap
      invariant 0 <= i <= cap
      invariant newQueue[..i] == (queue[head..] + queue[..head])[..i]
    {
      ModOnce(head + i, cap);
      newQueue[i] := queue[(head + i) % cap];
      i := i + 1;
    }
  }

  class MessageQueue<T(0)> {
    var queue: array<T>
    var cap: nat
    var head: nat
    var tail: nat
    var release: bool
    var inGlobal: bool
    var overload: nat
    var overloadThreshold: nat

    ghost predicate Valid()
      reads this
    {
      && queue.Length == cap && cap > 0
      && head < cap && tail < cap
      && overloadThreshold > 0
    }

    /** The messages from the oldest to the newest; the ring is never left full, so that equal
        indices mean empty. */
    ghost function Contents(): (s: seq<T>)
      requires Valid()
      reads this, queue
      ensures |s| < cap
    {
      if head <= tail then queue[head..tail] else queue[head..] + queue[..tail]
    }

    ghost function Value(): Queue<T>
      requires Valid()
      reads this, queue
    {
      Queue(Contents(), inGlobal, release)
    }

    /** `skynet_mq_create`: outside the global queue, but marked as inside. */
    constructor ()
      ensures Valid() && fresh(queue) && Value() == Queue([], true, false)
      ensures overload == 0 && overloadThreshold == MQ_OVERLOAD
    {
      queue := new T[DEFAULT_QUEUE_SIZE];
      cap := DEFAULT_QUEUE_SIZE;
      head, tail := 0, 0;
      inGlobal, release := true, false;
      overload, overloadThreshold := 0, MQ_OVERLOAD;
    }

    /** `skynet_mq_length` */
    method Length() returns (n: nat)
      requires Valid()
      ensures n == |Contents()|
    {
      if head <= tail {
        return tail - head;
      }
      n := tail + cap - head;
    }

    /** `expand_queue`: called when the slot just written made the ring full. */
    method Expand()
      requires Valid() && head == tail
      modifies this
      ensures Valid() && fresh(queue) && cap == 2 * old(cap)
      ensures Contents() == old(queue[head..] + queue[..head])
      ensures inGlobal == old(inGlobal) && release == old(release)
      ensures overload == old(overload) && overloadThreshold == old(overloadThreshold)
    {
      var newQueue := Unrolled(queue, head);
      head := 0;
      tail := cap;
      cap := cap * 2;
      queue := newQueue;
    }

    /** The slot at the tail is filled; that may make the ring full. */
    method Put(message: T)
      requires Valid()
      modifies `tail, queue
      ensures Valid()
      ensures if head == tail then queue[head..] + queue[..head] == old(Contents()) + [message]
              else Contents() == old(Contents()) + [message]
    {
      ghost var before := Contents();
      queue[tail] := message;
      if head <= tail {
        assert queue[head..tail + 1] == before + [message];
      } else {
        assert queue[head..] + queue[..tail + 1] == before + [message];
      }
      tail := tail + 1;
      if tail >= cap {
        tail := 0;
      }
    }

    /** `skynet_mq_push`; `link` tells that the queue is to enter the global queue now. */
    method Push(message: T) returns (link: bool)
      requires Valid()
      modifies this, queue
      ensures Valid() && (queue == old(queue) || fresh(queue))
      ensures Value() == Pushed(old(Value()), message) && link == Outside(old(Value()))
      ensures overload == old(overload) && overloadThreshold == old(overloadThreshold)
    {
      Put(message);
      if head == tail {
        Expand();
      }
      link := !inGlobal;
      inGlobal := true;
    }

    /** Raise the overload mark when `length` passes the threshold, and double the threshold. */
    method NoteLength(length: nat)
      requires overloadThreshold > 0
      modifies `overload, `overloadThreshold
      ensures overloadThreshold > 0
      ensures if length <= old(overloadThreshold) then
                overload == old(overload) && overloadThreshold == old(overloadThreshold)
              else overload == length && length <= overloadThreshold < 2 * length
    {
      while length > overloadThreshold
        invariant overloadThreshold >= old(overloadThreshold) > 0
        invariant if overloadThreshold == old(overloadThreshold) then overload == old(overload)
                  else overload == length && length > old(overloadThreshold) && overloadThreshold < 2 * length
        decreases length - overloadThreshold
      {
        overload := length;
        overloadThreshold := overloadThreshold * 2;
      }
    }

    /** `skynet_mq_pop`: no message means that the queue leaves the scheduler. The overload mark is
        raised when the rest is longer than any length reported since the queue was last empty. */
    method Pop() returns (r: Option<T>)
      requires Valid()
      modifies this
      ensures Valid() && queue == old(queue) && Value() == Popped(old(Value()))
      ensures r == if old(Contents()) == [] then None else Some(old(Contents())[0])
      ensures old(Contents()) == [] ==> overload == old(overload) && overloadThreshold == MQ_OVERLOAD
      ensures old(Contents()) != [] ==>
        var n := |Contents()|;
        if n <= old(overloadThreshold) then overload == old(overload) && overloadThreshold == old(overloadThreshold)
        else overload == n && n <= overloadThreshold < 2 * n
    {
      ghost var before := Contents();
      if head != tail {
        assert before != [] && queue[head] == before[0];
        r := Some(queue[head]);
        head := head + 1;
        if head >= cap {
          head := 0;
        }
        assert Contents() == before[1..];
        var length: int := tail - head;
        if length < 0 {
          length := length + cap;
        }
        NoteLength(length);
      } else {
        r := None;
        overloadThreshold := MQ_OVERLOAD;
        inGlobal := false;
      }
    }

    /** `skynet_mq_mark_release`; `link` as for Push. */
    method MarkRelease() returns (link: bool)
      requires Valid() && !release
      modifies `release
      ensures Valid() && Value() == Marked(old(Value())) && link == Outside(old(Value()))
    {
      release := true;
      link := !inGlobal;
    }
  }

  /** `_drop_queue`: every message left is dropped, in order. */
  method DropQueue<T(0)>(q: MessageQueue<T>) returns (dropped: seq<T>)
    requires q.Valid() && q.release
    modifies q
    ensures q.Valid() && q.Contents() == [] && dropped == old(q.Contents())
  {
    dropped := [];
    ghost var all, rest := q.Contents(), q.Contents();
    while true
      invariant q.Valid() && q.queue == old(q.queue) && q.Contents() == rest && dropped + rest == all
      decreases |rest|
    {
      var r := q.Pop();
      if r.None? {
        return;
      }
      MoveFirst(dropped, rest);
      rest := rest[1..];
      dropped := dropped + [r.value];
    }
  }

  lemma {:induction false} MoveFirst<T>(a: seq<T>, b: seq<T>)
    requires b != []
    ensures a + [b[0]] + b[1..] == a + b
  {
  }
}
