/** The actor scheduler: message queues, the global queue of queues, reference-counted services
    and the handle table (skynet_mq.c, skynet_server.c, skynet_handle.c).

    Any number of threads act as workers, senders, creators and killers. One action is one section
    under a lock or one atomic counter update; actions of different threads interleave freely. */
module Scheduler {

  import MQ = MessageQueue

  /** What became of a message taken from its queue. */
  datatype Fate = Called | Discarded | Dropped

  datatype Message = Message(source: nat, data: int)

  /** A service and its queue. `ref`, `registered` (in the handle table), `made` (`ctx->queue` is set),
      `init` and `callback` (one is set) belong to the context; the rest to the queue. `sent` and `log`
      are the history of accepted and of taken messages. */
  datatype Service = Service(
    ref: int, registered: bool, made: bool, init: bool, callback: bool,
    msgs: seq<Message>, inGlobal: bool, release: bool, freed: bool,
    sent: seq<Message>, log: seq<(Message, Fate)>)

  /** Where a thread is in the code. `q` is the service concerned. */
  datatype Thread =
    | Idle
    | Holding(q: nat)              // dispatch: has q, will grab its context
    | Running(q: nat)              // dispatch loop: has q and a reference
    | Emptied(q: nat)              // found the queue empty: has a reference
    | Finished(q: nat)             // loop done: has q and a reference
    | Kept(q: nat)                 // no other queue to run: has q and a reference
    | Swapping(q: nat, nq: nat)    // got another queue: has q, nq and a reference to q
    | Swapped(q: nat, nq: nat)     // put q back: has nq and a reference to q
    | Orphaned(q: nat)             // will call skynet_mq_release: has q
    | Draining(q: nat)             // dropping the messages of a released queue: has q
    | Sending(q: nat, m: Message)  // has a reference
    | Sent(q: nat)                 // has a reference
    | Registering(q: nat)          // registered, will make the queue: has q (to be) and a reference
    | Faulted(q: nat)              // has pushed to a context without a queue: has a reference
    | Creating(q: nat)             // service init runs: has q and a reference
    | Created(q: nat)              // init succeeded, and the context was still there: has q
    | Publishing(q: nat, ret: bool) // will link q: has q; ret tells that the context was still there
    | Logging(q: nat)              // q is linked; will log with the context
    | Failing(q: nat)              // init failed: has q, will retire the handle
    | FailRetired(q: nat)          // has q and the reference of the table
    | Retired(q: nat)              // killer: has the reference of the table
    | Deleting(q: nat, next: Thread) // dropped the last reference, will mark the queue

  function QueueOf(v: Service): MQ.Queue<Message> { MQ.Queue(v.msgs, v.inGlobal, v.release) }

  datatype State = State(services: seq<Service>, global: seq<nat>, threads: seq<Thread>)

  // ----- ownership -----

  datatype Kind = Queue | Reference | Deletion

  function One(b: bool): nat { if b then 1 else 0 }

  function OneAt(q: nat, n: nat): nat { if q == n then 1 else 0 }

  function Queues(t: Thread, n: nat): nat
  {
    match t
    case Holding(q) => OneAt(q, n)
    case Running(q) => OneAt(q, n)
    case Finished(q) => OneAt(q, n)
    case Kept(q) => OneAt(q, n)
    case Swapping(q, nq) => OneAt(q, n) + OneAt(nq, n)
    case Swapped(_, nq) => OneAt(nq, n)
    case Orphaned(q) => OneAt(q, n)
    case Draining(q) => OneAt(q, n)
    case Registering(q) => OneAt(q, n)
    case Creating(q) => OneAt(q, n)
    case Created(q) => OneAt(q, n)
    case Publishing(q, _) => OneAt(q, n)
    case Failing(q) => OneAt(q, n)
    case FailRetired(q) => OneAt(q, n)
    case _ => 0
  }

  function References(t: Thread, n: nat): nat
  {
    match t
    case Running(q) => OneAt(q, n)
    case Emptied(q) => OneAt(q, n)
    case Finished(q) => OneAt(q, n)
    case Kept(q) => OneAt(q, n)
    case Swapping(q, _) => OneAt(q, n)
    case Swapped(q, _) => OneAt(q, n)
    case Sending(q, _) => OneAt(q, n)
    case Sent(q) => OneAt(q, n)
    case Registering(q) => OneAt(q, n)
    case Faulted(q) => OneAt(q, n)
    case Creating(q) => OneAt(q, n)
    case FailRetired(q) => OneAt(q, n)
    case Retired(q) => OneAt(q, n)
    case _ => 0
  }

  /** How many queues, references and pending deletions of service `n` a thread has. */
  function Share(t: Thread, n: nat, kind: Kind): nat
  {
    match kind
    case Queue => if t.Deleting? then Queues(t.next, n) else Queues(t, n)
    case Reference => if t.Deleting? then References(t.next, n) else References(t, n)
    case Deletion => if t.Deleting? then OneAt(t.q, n) else 0
  }

  function Count(ts: seq<Thread>, n: nat, kind: Kind): nat
  {
    if ts == [] then 0 else Share(ts[0], n, kind) + Count(ts[1..], n, kind)
  }

  lemma {:induction false} CountUpdate(ts: seq<Thread>, i: nat, t: Thread, n: nat, kind: Kind)
    requires i < |ts|
    ensures Count(ts[i := t], n, kind) == Count(ts, n, kind) - Share(ts[i], n, kind) + Share(t, n, kind)
    decreases ts
  {
    if i == 0 {
      assert ts[i := t][1..] == ts[1..];
    } else {
      assert ts[i := t][1..] == ts[1..][i - 1 := t];
      CountUpdate(ts[1..], i - 1, t, n, kind);
    }
  }

  lemma {:induction false} CountAtLeast(ts: seq<Thread>, i: nat, n: nat, kind: Kind)
    requires i < |ts|
    ensures Count(ts, n, kind) >= Share(ts[i], n, kind)
    decreases ts
  {
    if i > 0 { CountAtLeast(ts[1..], i - 1, n, kind); }
  }

  lemma {:induction false} CountTwo(ts: seq<Thread>, i: nat, j: nat, n: nat, kind: Kind)
    requires i < j < |ts|
    ensures Count(ts, n, kind) >= Share(ts[i], n, kind) + Share(ts[j], n, kind)
    decreases ts
  {
    if i == 0 {
      CountAtLeast(ts[1..], j - 1, n, kind);
    } else {
      CountTwo(ts[1..], i - 1, j - 1, n, kind);
    }
  }

  function Linked(s: State, n: nat): nat { multiset(s.global)[n] }

  function Held(s: State, n: nat): nat { Count(s.threads, n, Queue) }

  // ----- actions -----

  datatype Action =
    | PopGlobal                 // skynet_globalmq_pop, starting a dispatch
    | Grab                      // skynet_handle_grab in a dispatch
    | Take(more: bool)          // skynet_mq_pop; hand the message over; go on or end the loop
    | NextQueue                 // skynet_globalmq_pop after the loop
    | PushBack                  // skynet_globalmq_push of the queue just run
    | Release                   // ATOM_DEC in skynet_context_release
    | Mark                      // skynet_mq_mark_release in delete_context
    | MqRelease                 // the locked part of skynet_mq_release
    | Drain                     // skynet_mq_pop in _drop_queue, or _release at the end
    | GrabToSend(to: nat, m: Message)
    | Push                      // skynet_mq_push
    | Create                    // skynet_context_new up to skynet_handle_register
    | MakeQueue                 // skynet_mq_create, and ctx->queue is set
    | SetCallback(on: bool)     // skynet_callback, by the service as it starts or runs
    | InitOk
    | InitFailed
    | SetInit                   // ctx->init = true, with the reference given back
    | Publish                   // skynet_globalmq_push of a new service's queue
    | Log                       // skynet_error(ret, ..), with the reference given back
    | RetireFailed              // skynet_handle_retire after a failed init
    | Retire(who: nat)          // skynet_handle_retire by anyone

  /** What a thread goes on with once its reference is given back. */
  function Resume(t: Thread): Thread
  {
    match t
    case Swapped(_, nq) => Holding(nq)
    case Kept(q) => Holding(q)
    case FailRetired(q) => Orphaned(q)
    case _ => Idle
  }

  predicate Releasing(t: Thread)
  {
    t.Emptied? || t.Swapped? || t.Kept? || t.Sent? || t.Retired? || t.FailRetired?
  }

  predicate Enabled(s: State, i: nat, a: Action)
  {
    i < |s.threads| &&
    var t := s.threads[i];
    match a
    case PopGlobal => t.Idle? && s.global != []
    case Grab => t.Holding?
    case Take(_) => t.Running?
    case NextQueue => t.Finished?
    case PushBack => t.Swapping?
    case Release => Releasing(t)
    case Mark => t.Deleting?
    case MqRelease => t.Orphaned?
    case Drain => t.Draining?
    case GrabToSend(to, _) => t.Idle? && to < |s.services| && s.services[to].registered
    case Push => t.Sending?
    case Create => t.Idle?
    case MakeQueue => t.Registering?
    case SetCallback(_) => t.Creating? || t.Running?
    case InitOk => t.Creating?
    case InitFailed => t.Creating?
    case SetInit => t.Created?
    case Publish => t.Publishing?
    case Log => t.Logging?
    case RetireFailed => t.Failing?
    case Retire(who) => t.Idle? && who < |s.services| && s.services[who].registered
  }

  /** Give back one reference; whoever drops the last one deletes the context and goes on as `gone`. */
  function Dec(s: State, i: nat, q: nat, next: Thread, gone: Thread): State
    requires i < |s.threads| && q < |s.services|
  {
    var v := s.services[q];
    s.(services := s.services[q := v.(ref := v.ref - 1)],
       threads := s.threads[i := if v.ref - 1 == 0 then Deleting(q, gone) else next])
  }

  function Step(s: State, i: nat, a: Action): State
    requires Wf(s) && Enabled(s, i, a)
  {
    var t := s.threads[i];
    match a
    case PopGlobal => s.(global := s.global[1..], threads := s.threads[i := Holding(s.global[0])])
    case Grab =>
      var v := s.services[t.q];
      if v.registered then s.(services := s.services[t.q := v.(ref := v.ref + 1)],
        threads := s.threads[i := Running(t.q)])
      else s.(threads := s.threads[i := Orphaned(t.q)])
    case Take(more) =>
      var v := s.services[t.q];
      if v.msgs == [] then
        s.(services := s.services[t.q := v.(inGlobal := false)], threads := s.threads[i := Emptied(t.q)])
      else
        var fate := if v.callback then Called else Discarded;
        s.(services := s.services[t.q := v.(msgs := v.msgs[1..], log := v.log + [(v.msgs[0], fate)])],
           threads := s.threads[i := if more then Running(t.q) else Finished(t.q)])
    case NextQueue =>
      if s.global == [] then s.(threads := s.threads[i := Kept(t.q)])
      else s.(global := s.global[1..], threads := s.threads[i := Swapping(t.q, s.global[0])])
    case PushBack => s.(global := s.global + [t.q], threads := s.threads[i := Swapped(t.q, t.nq)])
    case Release => Dec(s, i, t.q, Resume(t), Resume(t))
    case Mark =>
      var v := s.services[t.q];
      s.(services := s.services[t.q := v.(release := true)],
         global := if v.inGlobal then s.global else s.global + [t.q],
         threads := s.threads[i := t.next])
    case MqRelease =>
      if s.services[t.q].release then s.(threads := s.threads[i := Draining(t.q)])
      else s.(global := s.global + [t.q], threads := s.threads[i := Idle])
    case Drain =>
      var v := s.services[t.q];
      if v.msgs == [] then
        s.(services := s.services[t.q := v.(inGlobal := false, freed := true)], threads := s.threads[i := Idle])
      else
        s.(services := s.services[t.q := v.(msgs := v.msgs[1..], log := v.log + [(v.msgs[0], Dropped)])])
    case GrabToSend(to, m) =>
      var v := s.services[to];
      s.(services := s.services[to := v.(ref := v.ref + 1)], threads := s.threads[i := Sending(to, m)])
    case Push =>
      var v := s.services[t.q];
      if !v.made then s.(threads := s.threads[i := Faulted(t.q)])
      else s.(services := s.services[t.q := v.(msgs := v.msgs + [t.m], sent := v.sent + [t.m], inGlobal := true)],
         global := if v.inGlobal then s.global else s.global + [t.q],
         threads := s.threads[i := Sent(t.q)])
    case Create =>
      s.(services := s.services + [Service(2, true, false, false, false, [], true, false, false, [], [])],
         threads := s.threads[i := Registering(|s.services|)])
    case MakeQueue =>
      s.(services := s.services[t.q := s.services[t.q].(made := true)], threads := s.threads[i := Creating(t.q)])
    case SetCallback(on) =>
      s.(services := s.services[t.q := s.services[t.q].(callback := on)])
    case InitOk => Dec(s, i, t.q, Created(t.q), Publishing(t.q, false))
    case InitFailed => Dec(s, i, t.q, Failing(t.q), Failing(t.q))
    case SetInit =>
      s.(services := s.services[t.q := s.services[t.q].(init := true)],
        threads := s.threads[i := Publishing(t.q, true)])
    case Publish =>
      s.(global := s.global + [t.q], threads := s.threads[i := if t.ret then Logging(t.q) else Idle])
    case Log => s.(threads := s.threads[i := Idle])
    case RetireFailed =>
      var v := s.services[t.q];
      if v.registered then s.(services := s.services[t.q := v.(registered := false)],
        threads := s.threads[i := FailRetired(t.q)])
      else s.(threads := s.threads[i := Orphaned(t.q)])
    case Retire(who) =>
      s.(services := s.services[who := s.services[who].(registered := false)], threads := s.threads[i := Retired(who)])
  }

  // ----- the invariant -----

  predicate Known(t: Thread, n: nat)
  {
    match t
    case Idle => true
    case Deleting(q, next) => q < n && Known(next, n)
    case Swapping(q, nq) => q < n && nq < n
    case Swapped(q, nq) => q < n && nq < n
    case _ => t.q < n
  }

  /** Indices refer to services that exist. */
  predicate Wf(s: State)
  {
    && (forall i | 0 <= i < |s.threads| :: Known(s.threads[i], |s.services|))
    && (forall k | 0 <= k < |s.global| :: s.global[k] < |s.services|)
  }

  function Taken(log: seq<(Message, Fate)>): (r: seq<Message>)
  {
    if log == [] then [] else [log[0].0] + Taken(log[1..])
  }

  /** One service, given how often its queue is linked and held, how many references threads have
      and how many threads are deleting it. */
  predicate ServiceOk(v: Service, linked: nat, held: nat, refs: nat, deletions: nat)
  {
    // the count of references is exact, and its last drop leads to one release mark
    && v.ref == One(v.registered) + refs
    && (v.ref > 0 ==> !v.release && deletions == 0)
    && (v.ref == 0 ==> deletions == One(!v.release))
    // the queue is linked once, held once, or idle
    && linked + held <= 1
    && (v.freed ==> v.release && linked + held == 0 && v.msgs == [])
    && (!v.freed && linked + held == 0 ==> !v.inGlobal && v.msgs == [] && !v.release)
    && (linked + held == 1 ==> v.inGlobal || v.release)
    // every accepted message was taken once, in order, or is still queued
    && v.sent == Taken(v.log) + v.msgs
  }

  /** Only a released queue is drained. */
  predicate ThreadOk(s: State, t: Thread)
    requires Known(t, |s.services|)
  {
    && (t.Draining? ==> s.services[t.q].release)
    && (t.Deleting? ==> !t.next.Draining? && !t.next.Deleting?)
  }

  ghost predicate Inv(s: State)
  {
    && Wf(s)
    && (forall n {:trigger s.services[n]} | 0 <= n < |s.services| :: ServiceOk(s.services[n], Linked(s, n), Held(s, n),
          Count(s.threads, n, Reference), Count(s.threads, n, Deletion)))
    && (forall i | 0 <= i < |s.threads| :: ThreadOk(s, s.threads[i]))
  }

  // ----- every action keeps the invariant -----

  lemma PopFront(g: seq<nat>)
    requires g != []
    ensures multiset(g) == multiset(g[1..]) + multiset{g[0]}
  {
    assert g == [g[0]] + g[1..];
  }

  /** What the invariant says about the service a thread works on. */
  lemma ServiceAt(s: State, n: nat)
    requires Inv(s) && n < |s.services|
    ensures ServiceOk(s.services[n], Linked(s, n), Held(s, n), Count(s.threads, n, Reference),
            Count(s.threads, n, Deletion))
  {
    assert s.services[n] == s.services[n];
  }

  lemma {:induction false} TakenSnoc(log: seq<(Message, Fate)>, e: (Message, Fate))
    ensures Taken(log + [e]) == Taken(log) + [e.0]
    decreases log
  {
    if log == [] {
      assert log + [e] == [e];
    } else {
      assert (log + [e])[1..] == log[1..] + [e];
      TakenSnoc(log[1..], e);
    }
  }

  lemma TakenMoves(v: Service, fate: Fate)
    requires v.msgs != [] && v.sent == Taken(v.log) + v.msgs
    ensures v.sent == Taken(v.log + [(v.msgs[0], fate)]) + v.msgs[1..]
  {
    TakenSnoc(v.log, (v.msgs[0], fate));
  }

  /** The invariant of one service, as a property of a state. */
  ghost predicate OkAt(s: State, n: nat)
  {
    n < |s.services| && ServiceOk(s.services[n], Linked(s, n), Held(s, n), Count(s.threads, n, Reference),
      Count(s.threads, n, Deletion))
  }

  lemma OkEverywhere(s: State, i: nat, t: Thread, s': State)
    requires Inv(s) && i < |s.threads| && s'.threads == s.threads[i := t] && Known(t, |s'.services|)
    requires |s.services| <= |s'.services|
    requires forall k | 0 <= k < |s'.global| :: s'.global[k] < |s'.services|
    requires forall n | 0 <= n < |s.services| :: s.services[n].release ==> s'.services[n].release
    requires ThreadOk(s', t)
    requires forall n | 0 <= n < |s'.services| :: OkAt(s', n)
    ensures Inv(s')
  {
    hide ServiceOk;
    forall j | 0 <= j < |s'.threads| ensures Known(s'.threads[j], |s'.services|) {
      if j != i { KnownMore(s.threads[j], |s.services|, |s'.services|); }
    }
    forall j | 0 <= j < |s'.threads| ensures ThreadOk(s', s'.threads[j]) {
      if j != i { assert ThreadOk(s, s.threads[j]); }
    }
    forall n | 0 <= n < |s'.services|
      ensures ServiceOk(s'.services[n], Linked(s', n), Held(s', n), Count(s'.threads, n, Reference),
              Count(s'.threads, n, Deletion))
    {
      assert OkAt(s', n);
    }
  }

  lemma {:induction false} KnownMore(t: Thread, n: nat, m: nat)
    requires Known(t, n) && n <= m
    ensures Known(t, m)
    decreases t
  {
    if t.Deleting? { KnownMore(t.next, n, m); }
  }

  lemma CountsMove(s: State, s': State, i: nat, t: Thread, n: nat)
    requires i < |s.threads| && s'.threads == s.threads[i := t]
    ensures Held(s', n) == Held(s, n) - Share(s.threads[i], n, Queue) + Share(t, n, Queue)
    ensures Count(s'.threads, n, Reference)
            == Count(s.threads, n, Reference) - Share(s.threads[i], n, Reference) + Share(t, n, Reference)
    ensures Count(s'.threads, n, Deletion)
            == Count(s.threads, n, Deletion) - Share(s.threads[i], n, Deletion) + Share(t, n, Deletion)
    ensures Held(s, n) >= Share(s.threads[i], n, Queue)
    ensures Count(s.threads, n, Reference) >= Share(s.threads[i], n, Reference)
    ensures Count(s.threads, n, Deletion) >= Share(s.threads[i], n, Deletion)
  {
    CountUpdate(s.threads, i, t, n, Queue);
    CountUpdate(s.threads, i, t, n, Reference);
    CountUpdate(s.threads, i, t, n, Deletion);
    CountAtLeast(s.threads, i, n, Queue);
    CountAtLeast(s.threads, i, n, Reference);
    CountAtLeast(s.threads, i, n, Deletion);
  }

  /** The move concerns service `q` only. */
  ghost predicate Elsewhere(u: Thread, t: Thread, q: nat)
  {
    forall n: nat, kind: Kind | n != q :: Share(t, n, kind) == Share(u, n, kind)
  }

  ghost predicate LinkedElsewhere(s: State, s': State, q: nat)
  {
    && (forall n: nat | n != q :: Linked(s', n) == Linked(s, n))
    && (forall k | 0 <= k < |s'.global| :: s'.global[k] == q || s'.global[k] in s.global)
  }

  /** A thread moves, and one service and its place change. */
  lemma OneServiceMoves(s: State, s': State, i: nat, q: nat)
    requires Inv(s) && i < |s.threads| == |s'.threads| && q < |s.services| == |s'.services|
    requires s'.services == s.services[q := s'.services[q]] && s'.threads == s.threads[i := s'.threads[i]]
    requires Elsewhere(s.threads[i], s'.threads[i], q) && LinkedElsewhere(s, s', q)
    requires Known(s'.threads[i], |s.services|) && ThreadOk(s', s'.threads[i])
    requires (s.services[q].release ==> s'.services[q].release) && OkAt(s', q)
    ensures Inv(s')
  {
    hide Share, Count, ServiceOk, Known, ThreadOk;
    forall n | 0 <= n < |s'.services| ensures OkAt(s', n) {
      if n != q {
        ServiceAt(s, n);
        CountsMove(s, s', i, s'.threads[i], n);
      }
    }
    forall k | 0 <= k < |s'.global| ensures s'.global[k] < |s'.services| {
      if s'.global[k] != q {
        var j :| 0 <= j < |s.global| && s.global[j] == s'.global[k];
      }
    }
    OkEverywhere(s, i, s'.threads[i], s');
  }

  /** How often a queue is linked after a change at either end of the global queue. */
  lemma {:induction false} LinkedPop(s: State, s': State)
    requires s.global != [] && s'.global == s.global[1..]
    ensures LinkedElsewhere(s, s', s.global[0]) && Linked(s, s.global[0]) == Linked(s', s.global[0]) + 1
  {
    PopFront(s.global);
  }

  lemma {:induction false} LinkedPush(s: State, s': State, q: nat)
    requires s'.global == s.global + [q]
    ensures LinkedElsewhere(s, s', q) && Linked(s', q) == Linked(s, q) + 1
  {
  }

  lemma {:induction false} LinkedSame(s: State, s': State, q: nat)
    requires s'.global == s.global
    ensures LinkedElsewhere(s, s', q) && Linked(s', q) == Linked(s, q)
  {
  }

  // what happens to one service

  lemma QueueTaken(v: Service, linked: nat, held: nat, refs: nat, deletions: nat)
    requires ServiceOk(v, linked + 1, held, refs, deletions)
    ensures ServiceOk(v, linked, held + 1, refs, deletions)
  {
    hide Taken;
  }

  lemma QueueLinked(v: Service, linked: nat, held: nat, refs: nat, deletions: nat)
    requires ServiceOk(v, linked, held + 1, refs, deletions)
    ensures ServiceOk(v, linked + 1, held, refs, deletions)
  {
    hide Taken;
  }

  lemma QueueLeft(v: Service, linked: nat, held: nat, refs: nat, deletions: nat)
    requires ServiceOk(v, linked, held + 1, refs, deletions) && refs > 0 && v.msgs == []
    ensures ServiceOk(v.(inGlobal := false), linked, held, refs, deletions)
  {
    hide Taken;
  }

  lemma QueueFreed(v: Service, linked: nat, held: nat, refs: nat, deletions: nat)
    requires ServiceOk(v, linked, held + 1, refs, deletions) && v.release && v.msgs == []
    ensures ServiceOk(v.(inGlobal := false, freed := true), linked, held, refs, deletions)
  {
    hide Taken;
  }

  lemma MessageTaken(v: Service, fate: Fate, linked: nat, held: nat, refs: nat, deletions: nat)
    requires ServiceOk(v, linked, held, refs, deletions) && v.msgs != [] && held > 0
    ensures ServiceOk(v.(msgs := v.msgs[1..], log := v.log + [(v.msgs[0], fate)]), linked, held, refs, deletions)
  {
    TakenMoves(v, fate);
    hide Taken;
  }

  lemma MessagePushed(v: Service, m: Message, linked: nat, held: nat, refs: nat, deletions: nat)
    requires ServiceOk(v, linked, held, refs, deletions) && refs > 0
    ensures ServiceOk(v.(msgs := v.msgs + [m], sent := v.sent + [m], inGlobal := true),
                      linked + One(!v.inGlobal), held, refs, deletions)
  {
    hide Taken;
  }

  lemma ReferenceAdded(v: Service, linked: nat, held: nat, refs: nat, deletions: nat)
    requires ServiceOk(v, linked, held, refs, deletions) && v.registered
    ensures ServiceOk(v.(ref := v.ref + 1), linked, held, refs + 1, deletions)
  {
    hide Taken;
  }

  lemma ReferenceDropped(v: Service, linked: nat, held: nat, refs: nat, deletions: nat)
    requires ServiceOk(v, linked, held, refs, deletions) && refs > 0
    ensures ServiceOk(v.(ref := v.ref - 1), linked, held, refs - 1, deletions + One(v.ref - 1 == 0))
  {
    hide Taken;
  }

  lemma TableReferencePassed(v: Service, linked: nat, held: nat, refs: nat, deletions: nat)
    requires ServiceOk(v, linked, held, refs, deletions) && v.registered
    ensures ServiceOk(v.(registered := false), linked, held, refs + 1, deletions)
  {
    hide Taken;
  }

  lemma QueueMarked(v: Service, linked: nat, held: nat, refs: nat)
    requires ServiceOk(v, linked, held, refs, 1)
    ensures ServiceOk(v.(release := true), linked + One(!v.inGlobal), held, refs, 0)
  {
    hide Taken;
  }

  lemma ContextSet(v: Service, made: bool, init: bool, callback: bool, linked: nat, held: nat, refs: nat,
                   deletions: nat)
    requires ServiceOk(v, linked, held, refs, deletions)
    ensures ServiceOk(v.(made := made, init := init, callback := callback), linked, held, refs, deletions)
  {
    hide Taken;
  }

  /** What a thread has less, or more, of service `q` after a move, and of no other. */
  ghost predicate Moves(u: Thread, t: Thread, q: nat, dq: int, dr: int, dd: int)
  {
    && Elsewhere(u, t, q)
    && Share(t, q, Queue) == Share(u, q, Queue) + dq
    && Share(t, q, Reference) == Share(u, q, Reference) + dr
    && Share(t, q, Deletion) == Share(u, q, Deletion) + dd
  }

  /** The counts of the service that a thread works on, before and after. */
  lemma CountsAt(s: State, s': State, i: nat, q: nat, dq: int, dr: int, dd: int)
    requires Inv(s) && i < |s.threads| == |s'.threads| && q < |s.services|
    requires s'.threads == s.threads[i := s'.threads[i]] && Moves(s.threads[i], s'.threads[i], q, dq, dr, dd)
    ensures OkAt(s, q) && Held(s', q) == Held(s, q) + dq
    ensures Count(s'.threads, q, Reference) == Count(s.threads, q, Reference) + dr
    ensures Count(s'.threads, q, Deletion) == Count(s.threads, q, Deletion) + dd
    ensures Held(s, q) >= Share(s.threads[i], q, Queue)
    ensures Count(s.threads, q, Reference) >= Share(s.threads[i], q, Reference)
    ensures Count(s.threads, q, Deletion) >= Share(s.threads[i], q, Deletion)
  {
    hide Share, ServiceOk, Elsewhere;
    ServiceAt(s, q);
    CountsMove(s, s', i, s'.threads[i], q);
  }

  // the actions

  lemma {:induction false} PopMoves(u: Thread, q: nat, g: nat)
    requires u.Idle? || u == Finished(q)
    ensures Moves(u, if u.Idle? then Holding(g) else Swapping(q, g), g, 1, 0, 0)
    ensures u == Finished(q) ==> Moves(u, Kept(q), q, 0, 0, 0)
  {
  }

  lemma {:induction false} InvWf(s: State)
    requires Inv(s)
    ensures Wf(s)
  {
  }

  lemma {:induction false} ThreadAt(s: State, i: nat)
    requires Inv(s) && i < |s.threads|
    ensures Known(s.threads[i], |s.services|) && ThreadOk(s, s.threads[i])
  {
  }

  lemma PopGlobalKeeps(s: State, i: nat, a: Action)
    requires Inv(s) && Enabled(s, i, a) && (a.PopGlobal? || (a.NextQueue? && s.global != []))
    ensures Inv(Step(s, i, a))
  {
    hide Inv, Share, Count, ServiceOk, Linked, LinkedElsewhere, Elsewhere;
    InvWf(s);
    var s', g, u := Step(s, i, a), s.global[0], s.threads[i];
    PopMoves(u, if u.Idle? then g else u.q, g);
    LinkedPop(s, s');
    CountsAt(s, s', i, g, 1, 0, 0);
    QueueTaken(s.services[g], Linked(s', g), Held(s, g), Count(s.threads, g, Reference), Count(s.threads, g, Deletion));
    OneServiceMoves(s, s', i, g);
  }

  lemma NextQueueKeeps(s: State, i: nat)
    requires Inv(s) && Enabled(s, i, NextQueue)
    ensures Inv(Step(s, i, NextQueue))
  {
    hide Inv, Share, Count, ServiceOk, Linked, LinkedElsewhere, Elsewhere;
    InvWf(s);
    if s.global != [] {
      PopGlobalKeeps(s, i, NextQueue);
    } else {
      var s', u := Step(s, i, NextQueue), s.threads[i];
      PopMoves(u, u.q, 0);
      LinkedSame(s, s', u.q);
      CountsAt(s, s', i, u.q, 0, 0, 0);
      OneServiceMoves(s, s', i, u.q);
    }
  }

  lemma {:induction false} LinkMoves(q: nat, nq: nat)
    ensures Moves(Swapping(q, nq), Swapped(q, nq), q, -1, 0, 0)
    ensures Moves(Publishing(q, true), Logging(q), q, -1, 0, 0) && Moves(Publishing(q, false), Idle, q, -1, 0, 0)
    ensures Moves(Orphaned(q), Idle, q, -1, 0, 0) && Moves(Orphaned(q), Draining(q), q, 0, 0, 0)
  {
  }

  /** Linking a queue the thread has. */
  lemma LinkKeeps(s: State, i: nat, a: Action)
    requires Inv(s) && Enabled(s, i, a)
    requires a.PushBack? || a.Publish? || (a.MqRelease? && !s.services[s.threads[i].q].release)
    ensures Inv(Step(s, i, a))
  {
    hide Inv, Share, Count, ServiceOk, Linked, LinkedElsewhere, Elsewhere;
    InvWf(s);
    var s', u := Step(s, i, a), s.threads[i];
    var q := u.q;
    LinkMoves(q, if a.PushBack? then u.nq else 0);
    LinkedPush(s, s', q);
    CountsAt(s, s', i, q, -1, 0, 0);
    QueueLinked(s.services[q], Linked(s, q), Held(s', q), Count(s.threads, q, Reference),
      Count(s.threads, q, Deletion));
    OneServiceMoves(s, s', i, q);
  }

  lemma StartDrainKeeps(s: State, i: nat)
    requires Inv(s) && Enabled(s, i, MqRelease) && s.services[s.threads[i].q].release
    ensures Inv(Step(s, i, MqRelease))
  {
    hide Inv, Share, Count, ServiceOk, Linked, LinkedElsewhere, Elsewhere;
    InvWf(s);
    var s', q := Step(s, i, MqRelease), s.threads[i].q;
    LinkMoves(q, 0);
    LinkedSame(s, s', q);
    CountsAt(s, s', i, q, 0, 0, 0);
    OneServiceMoves(s, s', i, q);
  }

  lemma {:induction false} GrabMoves(q: nat, m: Message)
    ensures Moves(Holding(q), Running(q), q, 0, 1, 0) && Moves(Holding(q), Orphaned(q), q, 0, 0, 0)
    ensures Moves(Idle, Sending(q, m), q, 0, 1, 0)
  {
  }

  /** Taking a reference from the table, to dispatch or to send. */
  lemma GrabKeeps(s: State, i: nat, a: Action)
    requires Inv(s) && Enabled(s, i, a) && (a.Grab? || a.GrabToSend?)
    ensures Inv(Step(s, i, a))
  {
    hide Inv, Share, Count, ServiceOk, Linked, LinkedElsewhere, Elsewhere;
    InvWf(s);
    var q := if a.Grab? then s.threads[i].q else a.to;
    var s', v := Step(s, i, a), s.services[q];
    GrabMoves(q, if a.Grab? then Message(0, 0) else a.m);
    LinkedSame(s, s', q);
    CountsAt(s, s', i, q, 0, One(v.registered), 0);
    if v.registered {
      ReferenceAdded(v, Linked(s, q), Held(s, q), Count(s.threads, q, Reference), Count(s.threads, q, Deletion));
    }
    OneServiceMoves(s, s', i, q);
  }

  lemma {:induction false} TakeMoves(q: nat)
    ensures Moves(Running(q), Emptied(q), q, -1, 0, 0) && Share(Running(q), q, Reference) == 1
    ensures Moves(Running(q), Running(q), q, 0, 0, 0) && Moves(Running(q), Finished(q), q, 0, 0, 0)
    ensures Share(Running(q), q, Queue) == 1
  {
  }

  lemma TakeKeeps(s: State, i: nat, a: Action)
    requires Inv(s) && Enabled(s, i, a) && a.Take?
    ensures Inv(Step(s, i, a))
  {
    hide Inv, Share, Count, ServiceOk, Linked, LinkedElsewhere, Taken, Elsewhere;
    InvWf(s);
    var s', q := Step(s, i, a), s.threads[i].q;
    var v := s.services[q];
    TakeMoves(q);
    LinkedSame(s, s', q);
    CountsAt(s, s', i, q, if v.msgs == [] then -1 else 0, 0, 0);
    var refs, deletions := Count(s.threads, q, Reference), Count(s.threads, q, Deletion);
    if v.msgs == [] {
      QueueLeft(v, Linked(s, q), Held(s', q), refs, deletions);
    } else {
      MessageTaken(v, if v.callback then Called else Discarded, Linked(s, q), Held(s, q), refs, deletions);
    }
    OneServiceMoves(s, s', i, q);
  }

  lemma {:induction false} DrainMoves(q: nat)
    ensures Moves(Draining(q), Idle, q, -1, 0, 0) && Moves(Draining(q), Draining(q), q, 0, 0, 0)
    ensures Share(Draining(q), q, Queue) == 1
  {
  }

  lemma DrainKeeps(s: State, i: nat)
    requires Inv(s) && Enabled(s, i, Drain)
    ensures Inv(Step(s, i, Drain))
  {
    hide Inv, Share, Count, ServiceOk, Linked, LinkedElsewhere, Taken, Elsewhere;
    InvWf(s);
    var s', q := Step(s, i, Drain), s.threads[i].q;
    var v := s.services[q];
    ThreadAt(s, i);
    DrainMoves(q);
    LinkedSame(s, s', q);
    assert s'.threads == s.threads[i := s'.threads[i]];
    CountsAt(s, s', i, q, if v.msgs == [] then -1 else 0, 0, 0);
    var refs, deletions := Count(s.threads, q, Reference), Count(s.threads, q, Deletion);
    if v.msgs == [] {
      QueueFreed(v, Linked(s, q), Held(s', q), refs, deletions);
    } else {
      MessageTaken(v, Dropped, Linked(s, q), Held(s, q), refs, deletions);
    }
    OneServiceMoves(s, s', i, q);
  }

  lemma {:induction false} PushMoves(q: nat, m: Message)
    ensures Moves(Sending(q, m), Sent(q), q, 0, 0, 0) && Moves(Sending(q, m), Faulted(q), q, 0, 0, 0)
    ensures Share(Sending(q, m), q, Reference) == 1
  {
  }

  lemma PushKeeps(s: State, i: nat)
    requires Inv(s) && Enabled(s, i, Push)
    ensures Inv(Step(s, i, Push))
  {
    hide Inv, Share, Count, ServiceOk, Linked, LinkedElsewhere, Taken, Elsewhere;
    InvWf(s);
    var s', u := Step(s, i, Push), s.threads[i];
    var q := u.q;
    assert Known(u, |s.services|);
    var v := s.services[q];
    PushMoves(q, u.m);
    if v.made && !v.inGlobal { LinkedPush(s, s', q); } else { LinkedSame(s, s', q); }
    CountsAt(s, s', i, q, 0, 0, 0);
    if v.made {
      MessagePushed(v, u.m, Linked(s, q), Held(s, q), Count(s.threads, q, Reference), Count(s.threads, q, Deletion));
    }
    OneServiceMoves(s, s', i, q);
  }

  /** A thread with one reference less. */
  predicate GivesBack(u: Thread, t: Thread, q: nat)
  {
    || ((u == Emptied(q) || u == Sent(q) || u == Retired(q)) && t.Idle?)
    || (u == Kept(q) && t == Holding(q))
    || (u == FailRetired(q) && t == Orphaned(q))
    || (u.Swapped? && u.q == q && t == Holding(u.nq))
    || (u == Creating(q) && (t == Created(q) || t == Publishing(q, false) || t == Failing(q)))
  }

  lemma {:induction false} SimpleMoves(u: Thread, t: Thread, q: nat)
    requires GivesBack(u, t, q) && !u.Swapped? && !u.Creating?
    ensures Moves(u, t, q, 0, -1, 0) && Share(u, q, Reference) == 1
  {
  }

  lemma {:induction false} SwappedMoves(q: nat, nq: nat)
    ensures Moves(Swapped(q, nq), Holding(nq), q, 0, -1, 0) && Share(Swapped(q, nq), q, Reference) == 1
  {
  }

  lemma {:induction false} CreatingMoves(t: Thread, q: nat)
    requires t == Created(q) || t == Publishing(q, false) || t == Failing(q)
    ensures Moves(Creating(q), t, q, 0, -1, 0) && Share(Creating(q), q, Reference) == 1
  {
  }

  lemma {:induction false} BackMoves(u: Thread, t: Thread, q: nat)
    requires GivesBack(u, t, q)
    ensures Moves(u, t, q, 0, -1, 0) && !t.Deleting? && Share(u, q, Reference) == 1
  {
    hide Moves, Share;
    if u.Swapped? {
      SwappedMoves(q, u.nq);
    } else if u.Creating? {
      CreatingMoves(t, q);
    } else {
      SimpleMoves(u, t, q);
    }
  }

  lemma {:induction false} DeletingMoves(u: Thread, t: Thread, q: nat)
    requires Moves(u, t, q, 0, -1, 0) && !t.Deleting?
    ensures Moves(u, Deleting(q, t), q, 0, -1, 1) && Moves(Deleting(q, t), t, q, 0, 0, -1)
    ensures Share(Deleting(q, t), q, Deletion) == 1
  {
    hide Queues, References;
  }

  /** Giving back a reference. */
  lemma DecKeeps(s: State, i: nat, next: Thread, gone: Thread)
    requires Inv(s) && i < |s.threads| && !s.threads[i].Idle?
    requires Known(next, |s.services|) && !next.Draining? && Known(gone, |s.services|) && !gone.Draining?
    requires GivesBack(s.threads[i], next, s.threads[i].q) && GivesBack(s.threads[i], gone, s.threads[i].q)
    ensures Inv(Dec(s, i, s.threads[i].q, next, gone))
  {
    hide Inv, Share, Count, ServiceOk, Linked, LinkedElsewhere, GivesBack, Elsewhere;
    InvWf(s);
    var u, q := s.threads[i], s.threads[i].q;
    BackMoves(u, next, q);
    BackMoves(u, gone, q);
    assert Known(u, |s.services|);
    DeletingMoves(u, gone, q);
    var s', v := Dec(s, i, q, next, gone), s.services[q];
    LinkedSame(s, s', q);
    CountsAt(s, s', i, q, 0, -1, One(v.ref - 1 == 0));
    ReferenceDropped(v, Linked(s, q), Held(s, q), Count(s.threads, q, Reference), Count(s.threads, q, Deletion));
    OneServiceMoves(s, s', i, q);
  }

  lemma ReleaseKeeps(s: State, i: nat, a: Action)
    requires Inv(s) && Enabled(s, i, a) && (a.Release? || a.InitOk? || a.InitFailed?)
    ensures Inv(Step(s, i, a))
  {
    var t := s.threads[i];
    assert Known(t, |s.services|);
    hide Inv;
    var next := if a.Release? then Resume(t) else if a.InitOk? then Created(t.q) else Failing(t.q);
    DecKeeps(s, i, next, if a.InitOk? then Publishing(t.q, false) else next);
  }

  lemma {:induction false} ContextMoves(q: nat)
    ensures Moves(Registering(q), Creating(q), q, 0, 0, 0) && Moves(Creating(q), Creating(q), q, 0, 0, 0)
    ensures Moves(Running(q), Running(q), q, 0, 0, 0) && Moves(Created(q), Publishing(q, true), q, 0, 0, 0)
    ensures Moves(Logging(q), Idle, q, 0, 0, 0)
  {
  }

  /** Making the queue, setting `init` or the callback, and logging. */
  lemma ContextKeeps(s: State, i: nat, a: Action)
    requires Inv(s) && Enabled(s, i, a) && (a.SetInit? || a.SetCallback? || a.Log? || a.MakeQueue?)
    ensures Inv(Step(s, i, a))
  {
    hide Inv, Share, Count, ServiceOk, Linked, LinkedElsewhere, Elsewhere;
    InvWf(s);
    var s', q := Step(s, i, a), s.threads[i].q;
    assert Known(s.threads[i], |s.services|);
    var v, w := s.services[q], s'.services[q];
    ContextMoves(q);
    LinkedSame(s, s', q);
    assert s'.threads == s.threads[i := s'.threads[i]] && s'.services == s.services[q := w];
    CountsAt(s, s', i, q, 0, 0, 0);
    ContextSet(v, w.made, w.init, w.callback, Linked(s, q), Held(s, q),
               Count(s.threads, q, Reference), Count(s.threads, q, Deletion));
    OneServiceMoves(s, s', i, q);
  }

  lemma {:induction false} MarkMoves(q: nat, t: Thread)
    requires !t.Deleting?
    ensures Moves(Deleting(q, t), t, q, 0, 0, -1) && Share(Deleting(q, t), q, Deletion) == 1
  {
    hide Queues, References;
  }

  lemma MarkKeeps(s: State, i: nat)
    requires Inv(s) && Enabled(s, i, Mark)
    ensures Inv(Step(s, i, Mark))
  {
    hide Inv, Share, Count, ServiceOk, Linked, LinkedElsewhere, Elsewhere;
    InvWf(s);
    var s', u := Step(s, i, Mark), s.threads[i];
    var q := u.q;
    assert Known(u, |s.services|);
    ThreadAt(s, i);
    var v := s.services[q];
    MarkMoves(q, u.next);
    if v.inGlobal { LinkedSame(s, s', q); } else { LinkedPush(s, s', q); }
    CountsAt(s, s', i, q, 0, 0, -1);
    DeletedOnce(v, Linked(s, q), Held(s, q), Count(s.threads, q, Reference), Count(s.threads, q, Deletion));
    QueueMarked(v, Linked(s, q), Held(s, q), Count(s.threads, q, Reference));
    OneServiceMoves(s, s', i, q);
  }

  lemma DeletedOnce(v: Service, linked: nat, held: nat, refs: nat, deletions: nat)
    requires ServiceOk(v, linked, held, refs, deletions)
    ensures deletions <= 1
  {
    hide Taken;
  }

  lemma {:induction false} RetireMoves(q: nat)
    ensures Moves(Idle, Retired(q), q, 0, 1, 0) && Moves(Failing(q), FailRetired(q), q, 0, 1, 0)
    ensures Moves(Failing(q), Orphaned(q), q, 0, 0, 0)
  {
  }

  /** Taking the handle out of the table; its reference is the thread's now. */
  lemma RetireKeeps(s: State, i: nat, a: Action)
    requires Inv(s) && Enabled(s, i, a) && (a.Retire? || a.RetireFailed?)
    ensures Inv(Step(s, i, a))
  {
    hide Inv, Share, Count, ServiceOk, Linked, LinkedElsewhere, Elsewhere;
    InvWf(s);
    var q := if a.Retire? then a.who else s.threads[i].q;
    assert Known(s.threads[i], |s.services|);
    var s', v := Step(s, i, a), s.services[q];
    RetireMoves(q);
    LinkedSame(s, s', q);
    CountsAt(s, s', i, q, 0, One(v.registered), 0);
    if v.registered {
      TableReferencePassed(v, Linked(s, q), Held(s, q), Count(s.threads, q, Reference), Count(s.threads, q, Deletion));
    }
    OneServiceMoves(s, s', i, q);
  }

  lemma UnknownUnshared(t: Thread, n: nat, kind: Kind)
    requires Known(t, n)
    ensures Share(t, n, kind) == 0
  {
    if t.Deleting? { assert Known(t.next, n); }
  }

  lemma {:induction false} UnknownUncounted(ts: seq<Thread>, n: nat, kind: Kind)
    requires forall i | 0 <= i < |ts| :: Known(ts[i], n)
    ensures Count(ts, n, kind) == 0
    decreases ts
  {
    if ts != [] {
      UnknownUnshared(ts[0], n, kind);
      UnknownUncounted(ts[1..], n, kind);
    }
  }

  lemma CreateKeeps(s: State, i: nat)
    requires Inv(s) && Enabled(s, i, Create)
    ensures Inv(Step(s, i, Create))
  {
    var s', id := Step(s, i, Create), |s.services|;
    var t := Registering(id);
    UnknownUncounted(s.threads, id, Queue);
    UnknownUncounted(s.threads, id, Reference);
    UnknownUncounted(s.threads, id, Deletion);
    assert id !in s.global;
    hide Count;
    forall n | 0 <= n < |s'.services| ensures OkAt(s', n) {
      CountsMove(s, s', i, t, n);
      if n < id { ServiceAt(s, n); }
    }
    hide ServiceOk;
    OkEverywhere(s, i, t, s');
  }

  /** Every action of every thread keeps the invariant. */
  lemma StepKeeps(s: State, i: nat, a: Action)
    requires Inv(s) && Enabled(s, i, a)
    ensures Inv(Step(s, i, a))
  {
    hide Inv, Step;
    match a
    case PopGlobal => PopGlobalKeeps(s, i, a);
    case Grab => GrabKeeps(s, i, a);
    case Take(_) => TakeKeeps(s, i, a);
    case NextQueue => NextQueueKeeps(s, i);
    case PushBack => LinkKeeps(s, i, a);
    case Release => ReleaseKeeps(s, i, a);
    case Mark => MarkKeeps(s, i);
    case MqRelease => MqReleaseKeeps(s, i);
    case Drain => DrainKeeps(s, i);
    case GrabToSend(_, _) => GrabKeeps(s, i, a);
    case Push => PushKeeps(s, i);
    case Create => CreateKeeps(s, i);
    case InitOk => ReleaseKeeps(s, i, a);
    case InitFailed => ReleaseKeeps(s, i, a);
    case MakeQueue => ContextKeeps(s, i, a);
    case SetCallback(_) => ContextKeeps(s, i, a);
    case SetInit => ContextKeeps(s, i, a);
    case Publish => LinkKeeps(s, i, a);
    case Log => ContextKeeps(s, i, a);
    case RetireFailed => RetireKeeps(s, i, a);
    case Retire(_) => RetireKeeps(s, i, a);
  }

  lemma MqReleaseKeeps(s: State, i: nat)
    requires Inv(s) && Enabled(s, i, MqRelease)
    ensures Inv(Step(s, i, MqRelease))
  {
    if s.services[s.threads[i].q].release { StartDrainKeeps(s, i); } else { LinkKeeps(s, i, MqRelease); }
  }

  // ----- what holds in every reachable state -----

  function Initial(threads: nat): State { State([], [], seq(threads, _ => Idle)) }

  /** A run: which thread does what, one action after the other. */
  ghost predicate Runs(s: State, run: seq<(nat, Action)>, s': State)
    decreases run
  {
    if run == [] then s == s'
    else Wf(s) && Enabled(s, run[0].0, run[0].1) && Runs(Step(s, run[0].0, run[0].1), run[1..], s')
  }

  lemma {:induction false} RunsKeep(s: State, run: seq<(nat, Action)>, s': State)
    requires Inv(s) && Runs(s, run, s')
    ensures Inv(s')
    decreases run
  {
    if run != [] {
      StepKeeps(s, run[0].0, run[0].1);
      RunsKeep(Step(s, run[0].0, run[0].1), run[1..], s');
    }
  }

  // ----- services run after their start, and drop messages only at their end -----

  /** No worker can take a reference before the creator has set `init`. */
  predicate Shown(s: State, q: nat)
  {
    q < |s.services| && (s.services[q].init || !s.services[q].registered)
  }

  predicate ThreadShown(s: State, t: Thread)
    requires Known(t, |s.services|)
  {
    match t
    case Holding(q) => Shown(s, q)
    case Running(q) => s.services[q].init
    case Emptied(q) => s.services[q].init
    case Finished(q) => s.services[q].init
    case Kept(q) => s.services[q].init
    case Swapping(q, nq) => s.services[q].init && Shown(s, nq)
    case Swapped(_, nq) => Shown(s, nq)
    case Orphaned(q) => Shown(s, q)
    case FailRetired(q) => Shown(s, q)
    case Publishing(q, _) => Shown(s, q)
    case Deleting(q, next) => Shown(s, q) && (next.Publishing? ==> next.q == q) && ThreadShown(s, next)
    case _ => true
  }

  /** Dropped messages come last, after the release. */
  predicate DropsLast(v: Service)
  {
    && (forall k | 0 <= k < |v.log| :: v.log[k].1.Dropped? ==> v.release)
    && (forall j, k | 0 <= j < k < |v.log| :: v.log[j].1.Dropped? ==> v.log[k].1.Dropped?)
  }

  ghost predicate Started(s: State)
    requires Wf(s)
  {
    && (forall k | 0 <= k < |s.global| :: Shown(s, s.global[k]))
    && (forall q | 0 <= q < |s.services| :: !s.services[q].inGlobal ==> Shown(s, q))
    && (forall i | 0 <= i < |s.threads| :: ThreadShown(s, s.threads[i]))
    && (forall q | 0 <= q < |s.services| :: DropsLast(s.services[q]))
  }

  /** A step from `s` to `s'` takes no handle into the table and unsets no `init`. */
  predicate Later(s: State, s': State)
  {
    && |s.services| <= |s'.services|
    && forall q | 0 <= q < |s.services| ::
      (s.services[q].init ==> s'.services[q].init) && (s'.services[q].registered ==> s.services[q].registered)
  }

  lemma {:induction false} StepLater(s: State, i: nat, a: Action)
    requires Wf(s) && Enabled(s, i, a)
    ensures Later(s, Step(s, i, a))
  {
    assert Known(s.threads[i], |s.services|);
  }

  lemma {:induction false} ShownLater(s: State, s': State, t: Thread)
    requires Later(s, s') && Known(t, |s.services|) && ThreadShown(s, t)
    ensures Known(t, |s'.services|) && ThreadShown(s', t)
    decreases t
  {
    if t.Deleting? { ShownLater(s, s', t.next); }
  }

  /** A thread that gives back a reference. */
  lemma {:induction false} GiverShown(s: State, i: nat, next: Thread, gone: Thread)
    requires Inv(s) && Started(s) && i < |s.threads| && !s.threads[i].Idle?
    requires GivesBack(s.threads[i], next, s.threads[i].q) && GivesBack(s.threads[i], gone, s.threads[i].q)
    requires Known(next, |s.services|) && Known(gone, |s.services|)
    requires (next == gone && !next.Publishing?)
             || (next == Created(s.threads[i].q) && gone == Publishing(s.threads[i].q, false))
    ensures ActedShown(Dec(s, i, s.threads[i].q, next, gone), i)
  {
    var t := s.threads[i];
    assert Known(t, |s.services|) && ThreadShown(s, t);
    ServiceAt(s, t.q);
    CountAtLeast(s.threads, i, t.q, Reference);
    LastReference(s.services[t.q], Linked(s, t.q), Held(s, t.q), Count(s.threads, t.q, Reference),
      Count(s.threads, t.q, Deletion));
    NextShown(s, t, next, t.q);
    hide Count, DropsLast, Taken, Inv, Started, ServiceOk, GivesBack;
    var s' := Dec(s, i, t.q, next, gone);
    assert Later(s, s');
    hide Later, ThreadShown;
    ShownLater(s, s', next);
    if s.services[t.q].ref == 1 {
      assert Shown(s', t.q);
      LastShown(s', t.q, next, gone);
    }
  }

  lemma {:induction false} LastShown(s: State, q: nat, next: Thread, gone: Thread)
    requires Shown(s, q) && Known(next, |s.services|) && ThreadShown(s, next)
    requires (next == gone && !next.Publishing?) || gone == Publishing(q, false)
    ensures Known(Deleting(q, gone), |s.services|) && ThreadShown(s, Deleting(q, gone))
  {
  }

  lemma {:induction false} NextShown(s: State, t: Thread, next: Thread, q: nat)
    requires Known(t, |s.services|) && ThreadShown(s, t) && GivesBack(t, next, q) && !next.Publishing?
    ensures Known(next, |s.services|) && ThreadShown(s, next)
  {
  }

  lemma {:induction false} LastReference(v: Service, linked: nat, held: nat, refs: nat, deletions: nat)
    requires ServiceOk(v, linked, held, refs, deletions) && refs > 0
    ensures v.ref == 1 ==> !v.registered
  {
  }

  /** The thread that acts. */
  lemma {:induction false} ActorShown(s: State, i: nat, a: Action)
    requires Inv(s) && Started(s) && Enabled(s, i, a)
    ensures ActedShown(Step(s, i, a), i)
  {
    var t := s.threads[i];
    if a.Release? {
      assert Known(t, |s.services|);
      GiverShown(s, i, Resume(t), Resume(t));
    } else if a.InitOk? {
      GiverShown(s, i, Created(t.q), Publishing(t.q, false));
    } else if a.InitFailed? {
      GiverShown(s, i, Failing(t.q), Failing(t.q));
    } else if a.PopGlobal? || a.Grab? || a.Take? || a.NextQueue? || a.PushBack? {
      WorkerShown(s, i, a);
    } else {
      OtherShown(s, i, a);
    }
  }

  predicate ActedShown(s: State, i: nat)
  {
    i < |s.threads| && Known(s.threads[i], |s.services|) && ThreadShown(s, s.threads[i])
  }

  lemma {:induction false} WorkerShown(s: State, i: nat, a: Action)
    requires Inv(s) && Started(s) && Enabled(s, i, a)
    requires a.PopGlobal? || a.Grab? || a.Take? || a.NextQueue? || a.PushBack?
    ensures ActedShown(Step(s, i, a), i)
  {
    hide Inv, Started, Step, Known, ThreadShown;
    IsShown(s, i);
    if a.PopGlobal? || a.NextQueue? {
      FrontShown(s);
      FrontTaken(s, i, a);
    } else {
      HeldShown(s, i, a);
    }
  }

  lemma {:induction false} IsShown(s: State, i: nat)
    requires Inv(s) && Started(s) && i < |s.threads|
    ensures Wf(s) && Known(s.threads[i], |s.services|) && ThreadShown(s, s.threads[i])
  {
  }

  lemma {:induction false} FrontTaken(s: State, i: nat, a: Action)
    requires Wf(s) && Enabled(s, i, a) && (a.PopGlobal? || a.NextQueue?)
    requires ThreadShown(s, s.threads[i]) && (s.global != [] ==> Shown(s, s.global[0]))
    ensures ActedShown(Step(s, i, a), i)
  {
    assert Known(s.threads[i], |s.services|);
  }

  lemma {:induction false} HeldShown(s: State, i: nat, a: Action)
    requires Wf(s) && Enabled(s, i, a) && (a.Grab? || a.Take? || a.PushBack?)
    requires ThreadShown(s, s.threads[i])
    ensures ActedShown(Step(s, i, a), i)
  {
    assert Known(s.threads[i], |s.services|);
  }

  lemma {:induction false} OtherShown(s: State, i: nat, a: Action)
    requires Inv(s) && Started(s) && Enabled(s, i, a)
    requires !a.PopGlobal? && !a.Grab? && !a.Take? && !a.NextQueue? && !a.PushBack?
    requires !a.Release? && !a.InitOk? && !a.InitFailed?
    ensures ActedShown(Step(s, i, a), i)
  {
    hide *;
    if a.Mark? {
      MarkShown(s, i);
    } else if a.RetireFailed? || a.SetInit? || a.SetCallback? || a.MakeQueue? {
      SetShown(s, i, a);
    } else {
      FreeShown(s, i, a);
    }
  }

  lemma {:induction false} MarkShown(s: State, i: nat)
    requires Inv(s) && Started(s) && Enabled(s, i, Mark)
    ensures ActedShown(Step(s, i, Mark), i)
  {
    var t := s.threads[i];
    assert Known(t, |s.services|) && ThreadShown(s, t) && ThreadOk(s, t);
    StepLater(s, i, Mark);
    hide Inv, Started, Later;
    ShownLater(s, Step(s, i, Mark), t.next);
  }

  lemma {:induction false} SetShown(s: State, i: nat, a: Action)
    requires Inv(s) && Started(s) && Enabled(s, i, a)
             && (a.RetireFailed? || a.SetInit? || a.SetCallback? || a.MakeQueue?)
    ensures ActedShown(Step(s, i, a), i)
  {
    assert Known(s.threads[i], |s.services|) && ThreadShown(s, s.threads[i]);
    hide Inv, Started, Dec;
  }

  lemma {:induction false} FreeShown(s: State, i: nat, a: Action)
    requires Inv(s) && Enabled(s, i, a)
    requires a.MqRelease? || a.Drain? || a.GrabToSend? || a.Push? || a.Create? || a.Publish? || a.Log? || a.Retire?
    ensures ActedShown(Step(s, i, a), i)
  {
    assert Known(s.threads[i], |s.services|);
    var s' := Step(s, i, a);
    assert i < |s'.threads| && Free(s'.threads[i], |s'.services|);
    hide Step, Dec, Enabled;
  }

  /** Threads of which nothing is asked. */
  predicate Free(t: Thread, n: nat)
  {
    || t.Idle?
    || ((t.Faulted? || t.Registering? || t.Draining? || t.Sending? || t.Sent? || t.Creating? || t.Logging?
         || t.Retired?)
        && t.q < n)
  }

  lemma {:induction false} FrontShown(s: State)
    requires Wf(s) && Started(s)
    ensures s.global != [] ==> Shown(s, s.global[0])
  {
  }

  lemma {:induction false} StepStarted(s: State, i: nat, a: Action)
    requires Inv(s) && Started(s) && Enabled(s, i, a) && Wf(Step(s, i, a))
    ensures Started(Step(s, i, a))
  {
    var s' := Step(s, i, a);
    StepLater(s, i, a);
    ActorShown(s, i, a);
    LinkedShown(s, i, a);
    OutsideShown(s, i, a);
    forall q | 0 <= q < |s'.services| ensures DropsLast(s'.services[q]) { StepDropsLast(s, i, a, q); }
    forall j | 0 <= j < |s'.threads| ensures ThreadShown(s', s'.threads[j]) {
      if j != i { assert s'.threads[j] == s.threads[j]; ShownLater(s, s', s.threads[j]); }
    }
  }

  lemma {:induction false} LinkedShown(s: State, i: nat, a: Action)
    requires Inv(s) && Started(s) && Enabled(s, i, a)
    ensures var s' := Step(s, i, a); forall k | 0 <= k < |s'.global| :: Shown(s', s'.global[k])
  {
    var s', t := Step(s, i, a), s.threads[i];
    assert Known(t, |s.services|) && ThreadShown(s, t);
    StepLater(s, i, a);
    forall k | 0 <= k < |s'.global| ensures Shown(s', s'.global[k]) {
      assert s'.global[k] in s.global || s'.global[k] == t.q;
    }
  }

  lemma {:induction false} OutsideShown(s: State, i: nat, a: Action)
    requires Inv(s) && Started(s) && Enabled(s, i, a)
    ensures var s' := Step(s, i, a); forall q | 0 <= q < |s'.services| :: !s'.services[q].inGlobal ==> Shown(s', q)
  {
    hide ServiceOk, Count, Share, DropsLast, ThreadOk, Inv, Later;
    InvWf(s);
    var s', t := Step(s, i, a), s.threads[i];
    ThreadAt(s, i);
    assert ThreadShown(s, t);
    StepLater(s, i, a);
    if t.Draining? { DrainedShown(s, i); }
    forall q | 0 <= q < |s'.services| && !s'.services[q].inGlobal ensures Shown(s', q) {
      if q < |s.services| {
        StillShown(s, s', q);
        if s.services[q].inGlobal { assert a.Take? || a.Drain?; }
      }
    }
  }

  lemma {:induction false} StillShown(s: State, s': State, q: nat)
    requires Later(s, s') && Shown(s, q)
    ensures Shown(s', q)
  {
  }

  lemma {:induction false} DrainedShown(s: State, i: nat)
    requires Inv(s) && i < |s.threads| && s.threads[i].Draining?
    ensures Shown(s, s.threads[i].q)
  {
    hide Count, Share, Taken;
    ThreadAt(s, i);
    ServiceAt(s, s.threads[i].q);
  }

  lemma {:induction false} LogGrows(v: Service, v': Service)
    requires DropsLast(v) && (v.release ==> v'.release)
    requires v'.log == v.log
             || exists m, fate ::
                  v'.log == v.log + [(m, fate)] && (if fate.Dropped? then v'.release else !v.release)
    ensures DropsLast(v')
  {
  }

  lemma {:induction false} StepDropsLast(s: State, i: nat, a: Action, q: nat)
    requires Inv(s) && Started(s) && Enabled(s, i, a) && q < |Step(s, i, a).services|
    ensures DropsLast(Step(s, i, a).services[q])
  {
    hide Inv, Started, ServiceOk, Share, Count, Linked, DropsLast, ThreadOk;
    InvWf(s);
    ThreadAt(s, i);
    if q >= |s.services| {
      NothingLogged(Step(s, i, a).services[q]);
    } else {
      DropsAt(s, q);
      if a.Take? || a.Drain? {
        TakeDropsLast(s, i, a, q);
      } else {
        LogGrows(s.services[q], Step(s, i, a).services[q]);
      }
    }
  }

  lemma {:induction false} NothingLogged(v: Service)
    requires v.log == []
    ensures DropsLast(v)
  {
  }

  lemma {:induction false} DropsAt(s: State, q: nat)
    requires Wf(s) && Started(s) && q < |s.services|
    ensures DropsLast(s.services[q])
  {
  }

  lemma {:induction false} TakeDropsLast(s: State, i: nat, a: Action, q: nat)
    requires Inv(s) && Enabled(s, i, a) && (a.Take? || a.Drain?) && q < |s.services| && DropsLast(s.services[q])
    ensures q < |Step(s, i, a).services| && DropsLast(Step(s, i, a).services[q])
  {
    var t, v, s' := s.threads[i], s.services[q], Step(s, i, a);
    assert Known(t, |s.services|) && ThreadOk(s, t);
    ServiceAt(s, t.q);
    CountAtLeast(s.threads, i, t.q, Reference);
    hide Count, DropsLast, Inv, Taken;
    if q == t.q && v.msgs != [] {
      var fate := if a.Drain? then Dropped else if v.callback then Called else Discarded;
      assert s'.services[q].log == v.log + [(v.msgs[0], fate)];
    }
    LogGrows(v, s'.services[q]);
  }

  /** The invariants of every run. */
  lemma {:induction false} RunsStart(s: State, run: seq<(nat, Action)>, s': State)
    requires Inv(s) && Started(s) && Runs(s, run, s')
    ensures Inv(s') && Started(s')
    decreases run
  {
    if run != [] {
      StepKeeps(s, run[0].0, run[0].1);
      StepStarted(s, run[0].0, run[0].1);
      RunsStart(Step(s, run[0].0, run[0].1), run[1..], s');
    }
  }

  /** A service is dispatched only after its creator has set `init`, as `dispatch_message` asserts. */
  lemma {:induction false} DispatchedAfterInit(threads: nat, run: seq<(nat, Action)>, s: State, i: nat)
    requires Runs(Initial(threads), run, s) && i < |s.threads| && s.threads[i].Running?
    ensures s.threads[i].q < |s.services| && s.services[s.threads[i].q].init
  {
    RunsStart(Initial(threads), run, s);
    assert Known(s.threads[i], |s.services|) && ThreadShown(s, s.threads[i]);
  }

  lemma Reachable(threads: nat, run: seq<(nat, Action)>, s: State)
    requires Runs(Initial(threads), run, s)
    ensures Inv(s)
  {
    RunsKeep(Initial(threads), run, s);
  }

  predicate Dispatching(t: Thread, q: nat)
  {
    (t.Running? || t.Finished? || t.Kept? || t.Holding? || t.Swapping? || t.Draining?) && t.q == q
  }

  /** No service is run by two workers. */
  lemma SingleDispatcher(threads: nat, run: seq<(nat, Action)>, s: State, i: nat, j: nat, q: nat)
    requires Runs(Initial(threads), run, s)
    requires i < |s.threads| && j < |s.threads| && Dispatching(s.threads[i], q) && Dispatching(s.threads[j], q)
    ensures i == j
  {
    Reachable(threads, run, s);
    assert Known(s.threads[i], |s.services|);
    ServiceAt(s, q);
    if i < j { CountTwo(s.threads, i, j, q, Queue); }
    if j < i { CountTwo(s.threads, j, i, q, Queue); }
  }

  /** Every unfreed queue is in exactly one place: linked once in the global queue, with exactly
      one thread, or idle, which means empty, unreleased and marked as outside. */
  lemma OnePlace(threads: nat, run: seq<(nat, Action)>, s: State, q: nat)
    requires Runs(Initial(threads), run, s) && q < |s.services| && !s.services[q].freed
    ensures (Linked(s, q), Held(s, q)) == (1, 0) || (Linked(s, q), Held(s, q)) == (0, 1)
            || ((Linked(s, q), Held(s, q)) == (0, 0) && s.services[q].msgs == []
                && !s.services[q].release && !s.services[q].inGlobal)
  {
    Reachable(threads, run, s);
    ServiceAt(s, q);
  }

  /** No message waits in a queue that nobody will run. */
  lemma NoStrandedQueue(threads: nat, run: seq<(nat, Action)>, s: State, q: nat)
    requires Runs(Initial(threads), run, s) && q < |s.services| && s.services[q].msgs != []
    ensures !s.services[q].freed && Linked(s, q) + Held(s, q) == 1
  {
    Reachable(threads, run, s);
    ServiceAt(s, q);
  }

  // ----- what becomes of messages -----

  /** A step adds no entry to the log of `q`, or the first message of its queue: called or discarded by
      the worker that has the queue, and called exactly when the callback is set; dropped after the
      release by the thread that drains it. */
  predicate LogsOne(s: State, i: nat, s': State, q: nat)
    requires i < |s.threads| && q < |s.services| && q < |s'.services|
  {
    var v, log, t := s.services[q], s'.services[q].log, s.threads[i];
    || log == v.log
    || (v.msgs != [] && |log| == |v.log| + 1 && log[..|v.log|] == v.log && log[|v.log|].0 == v.msgs[0]
        && var fate := log[|v.log|].1;
           if v.release then fate == Dropped && t == Draining(q)
           else t == Running(q) && (fate == Called <==> v.callback) && (fate == Discarded <==> !v.callback))
  }

  lemma {:induction false} StepLogsOne(s: State, i: nat, a: Action, q: nat)
    requires Inv(s) && Enabled(s, i, a) && q < |s.services|
    ensures q < |Step(s, i, a).services| && LogsOne(s, i, Step(s, i, a), q)
  {
    hide Inv, Share, Count, ServiceOk, Taken, Linked;
    InvWf(s);
    ThreadAt(s, i);
    if a.Take? { NotReleased(s, i); }
  }

  lemma {:induction false} NotReleased(s: State, i: nat)
    requires Inv(s) && i < |s.threads| && s.threads[i].Running?
    ensures s.threads[i].q < |s.services| && !s.services[s.threads[i].q].release
  {
    ThreadAt(s, i);
    ServiceAt(s, s.threads[i].q);
    CountAtLeast(s.threads, i, s.threads[i].q, Reference);
  }

  /** In every state of the run, from the first on, the callback of `q` is set, or not. */
  ghost predicate CallbackIs(s: State, run: seq<(nat, Action)>, q: nat, on: bool)
    decreases run
  {
    && (q < |s.services| ==> s.services[q].callback == on)
    && (run != [] && Wf(s) && Enabled(s, run[0].0, run[0].1) ==>
          CallbackIs(Step(s, run[0].0, run[0].1), run[1..], q, on))
  }

  /** The entries of `log` behind the first `n` have one of two fates. */
  predicate FatesFrom(log: seq<(Message, Fate)>, n: nat, one: Fate, two: Fate)
  {
    n <= |log| && forall k | n <= k < |log| :: log[k].1 == one || log[k].1 == two
  }

  /** While the callback is set no message is discarded, and while it is not none is called. */
  lemma {:induction false} CallbackDecides(s: State, run: seq<(nat, Action)>, s': State, q: nat, on: bool)
    requires Inv(s) && Runs(s, run, s') && q < |s.services| && CallbackIs(s, run, q, on)
    ensures q < |s'.services| && s.services[q].log <= s'.services[q].log
    ensures FatesFrom(s'.services[q].log, |s.services[q].log|, if on then Called else Discarded, Dropped)
    decreases run
  {
    hide Inv, Step, Enabled;
    if run != [] {
      var z := Step(s, run[0].0, run[0].1);
      StepKeeps(s, run[0].0, run[0].1);
      StepLogsOne(s, run[0].0, run[0].1, q);
      CallbackDecides(z, run[1..], s', q, on);
    }
  }

  /** Once a service is released all that is taken from its queue is dropped. */
  lemma {:induction false} ReleasedDrops(s: State, run: seq<(nat, Action)>, s': State, q: nat)
    requires Inv(s) && Runs(s, run, s') && q < |s.services| && s.services[q].release
    ensures q < |s'.services| && s'.services[q].release && s.services[q].log <= s'.services[q].log
    ensures FatesFrom(s'.services[q].log, |s.services[q].log|, Dropped, Dropped)
    decreases run
  {
    hide Inv, Step, Enabled;
    if run != [] {
      var z := Step(s, run[0].0, run[0].1);
      StepKeeps(s, run[0].0, run[0].1);
      StepLogsOne(s, run[0].0, run[0].1, q);
      StaysReleased(s, run[0].0, run[0].1, q);
      ReleasedDrops(z, run[1..], s', q);
    }
  }

  lemma {:induction false} StaysReleased(s: State, i: nat, a: Action, q: nat)
    requires Inv(s) && Enabled(s, i, a) && q < |s.services| && s.services[q].release
    ensures q < |Step(s, i, a).services| && Step(s, i, a).services[q].release
  {
    hide Inv, Share, Count, ServiceOk, Taken, Linked;
    InvWf(s);
    ThreadAt(s, i);
  }

  /** Every accepted message was handed over exactly once, in order, or is still queued: to the callback
      as long as that is set, else discarded; and to the drop function only when the service is gone,
      and then all that are left. */
  lemma DeliveredOnce(threads: nat, run: seq<(nat, Action)>, s: State, more: seq<(nat, Action)>, s': State, q: nat)
    requires Runs(Initial(threads), run, s) && q < |s.services| && Runs(s, more, s')
    ensures q < |s'.services| && s.services[q].log <= s'.services[q].log
    ensures s.services[q].sent == Taken(s.services[q].log) + s.services[q].msgs
    ensures s.services[q].freed ==> s.services[q].sent == Taken(s.services[q].log)
    ensures DropsLast(s.services[q]) && (s.services[q].ref > 0 ==> !s.services[q].release)
    ensures forall on | CallbackIs(s, more, q, on) ::
              FatesFrom(s'.services[q].log, |s.services[q].log|, if on then Called else Discarded, Dropped)
    ensures s.services[q].release ==> FatesFrom(s'.services[q].log, |s.services[q].log|, Dropped, Dropped)
  {
    hide Inv, Started, ServiceOk, Initial, Taken;
    InitialOk(threads);
    RunsStart(Initial(threads), run, s);
    LogOk(s, q);
    LogGrowsAlong(s, more, s', q);
    forall on | CallbackIs(s, more, q, on)
      ensures FatesFrom(s'.services[q].log, |s.services[q].log|, if on then Called else Discarded, Dropped)
    {
      CallbackDecides(s, more, s', q, on);
    }
    if s.services[q].release { ReleasedDrops(s, more, s', q); }
  }

  lemma {:induction false} InitialOk(threads: nat)
    ensures Inv(Initial(threads)) && Started(Initial(threads))
  {
  }

  lemma {:induction false} LogOk(s: State, q: nat)
    requires Inv(s) && Started(s) && q < |s.services|
    ensures s.services[q].sent == Taken(s.services[q].log) + s.services[q].msgs
    ensures s.services[q].freed ==> s.services[q].sent == Taken(s.services[q].log)
    ensures DropsLast(s.services[q]) && (s.services[q].ref > 0 ==> !s.services[q].release)
  {
    hide Taken;
    ServiceAt(s, q);
  }

  lemma {:induction false} LogGrowsAlong(s: State, run: seq<(nat, Action)>, s': State, q: nat)
    requires Inv(s) && Runs(s, run, s') && q < |s.services|
    ensures q < |s'.services| && s.services[q].log <= s'.services[q].log
    decreases run
  {
    hide Inv, Step, Enabled;
    if run != [] {
      StepKeeps(s, run[0].0, run[0].1);
      StepLogsOne(s, run[0].0, run[0].1, q);
      LogGrowsAlong(Step(s, run[0].0, run[0].1), run[1..], s', q);
    }
  }

  // ----- the order of the global queue -----

  /** The queue that the thread of a step has got from the global queue. */
  function Got(s: State, i: nat, a: Action, s': State): seq<nat>
    requires i < |s.threads| && i < |s'.threads|
  {
    if a.PopGlobal? && s'.threads[i].Holding? then [s'.threads[i].q]
    else if a.NextQueue? && s'.threads[i].Swapping? then [s'.threads[i].nq]
    else []
  }

  /** The queues that workers get from the global queue in a run, in order. */
  ghost function AllGot(s: State, run: seq<(nat, Action)>): seq<nat>
    decreases run
  {
    if run == [] || !Wf(s) || !Enabled(s, run[0].0, run[0].1) then []
    else
      var s' := Step(s, run[0].0, run[0].1);
      (if run[0].0 < |s'.threads| then Got(s, run[0].0, run[0].1, s') else []) + AllGot(s', run[1..])
  }

  lemma {:induction false} StepFifo(s: State, i: nat, a: Action)
    requires Wf(s) && Enabled(s, i, a)
    ensures var s' := Step(s, i, a);
            |s'.threads| == |s.threads| && exists added :: s.global + added == Got(s, i, a, s') + s'.global
  {
    assert Known(s.threads[i], |s.services|);
    var s' := Step(s, i, a);
    var got := Got(s, i, a, s');
    if a.PopGlobal? || (a.NextQueue? && s.global != []) {
      assert s.global + [] == got + s'.global;
    } else if s'.global == s.global {
      assert s.global + [] == got + s'.global;
    } else {
      assert a.PushBack? || a.Publish? || a.MqRelease? || a.Mark? || a.Push?;
      assert s.global + [s.threads[i].q] == got + s'.global;
    }
  }

  /** Queues leave the global queue in the order in which they stand there: what workers get, and then
      what is left, begins with what stood there. */
  lemma {:induction false} GlobalIsFifo(s: State, run: seq<(nat, Action)>, s': State)
    requires Inv(s) && Runs(s, run, s')
    ensures s.global <= AllGot(s, run) + s'.global
    decreases run
  {
    hide Inv, Step, Enabled;
    if run != [] {
      InvWf(s);
      StepKeeps(s, run[0].0, run[0].1);
      StepFifo(s, run[0].0, run[0].1);
      var z := Step(s, run[0].0, run[0].1);
      ThreadsStay(s, run[0].0, run[0].1);
      GlobalIsFifo(z, run[1..], s');
      var got := Got(s, run[0].0, run[0].1, z);
      var added :| s.global + added == got + z.global;
      assert AllGot(s, run) + s'.global == got + (AllGot(z, run[1..]) + s'.global);
      PrefixChain(s.global, added, got, z.global, AllGot(z, run[1..]) + s'.global);
    }
  }

  lemma {:induction false} ThreadsStay(s: State, i: nat, a: Action)
    requires Wf(s) && Enabled(s, i, a)
    ensures i < |s.threads| == |Step(s, i, a).threads|
  {
    assert Known(s.threads[i], |s.services|);
  }

  lemma {:induction false} PrefixChain(a: seq<nat>, b: seq<nat>, c: seq<nat>, d: seq<nat>, e: seq<nat>)
    requires a + b == c + d && d <= e
    ensures a <= c + e
  {
    assert c + e == c + d + e[|d|..];
  }

  /** A step does to a queue what one operation of its ring does, and nothing to other queues; what
      the operation wants linked is linked. */
  lemma {:induction false} StepIsQueue(s: State, i: nat, a: Action, q: nat)
    requires Inv(s) && Enabled(s, i, a) && q < |s.services|
    ensures var (s', t) := (Step(s, i, a), s.threads[i]);
      q < |s'.services| &&
      var (v, v') := (QueueOf(s.services[q]), QueueOf(s'.services[q]));
      if a.Push? && q == t.q && s.services[q].made then
        v' == MQ.Pushed(v, t.m) && s'.global == if MQ.Outside(v) then s.global + [q] else s.global
      else if a.Mark? && q == t.q then
        v' == MQ.Marked(v) && !v.release && s'.global == if MQ.Outside(v) then s.global + [q] else s.global
      else if (a.Take? || a.Drain?) && q == t.q then v' == MQ.Popped(v)
      else v' == v
  {
    hide Inv, Step, Enabled;
    if a.Push? || a.Mark? || a.Take? || a.Drain? { QueueActs(s, i, a, q); } else { QueueStays(s, i, a, q); }
  }

  lemma {:induction false} QueueActs(s: State, i: nat, a: Action, q: nat)
    requires Inv(s) && Enabled(s, i, a) && q < |s.services| && (a.Push? || a.Mark? || a.Take? || a.Drain?)
    ensures var (s', t) := (Step(s, i, a), s.threads[i]);
      q < |s'.services| &&
      var (v, v') := (QueueOf(s.services[q]), QueueOf(s'.services[q]));
      if a.Push? && q == t.q && s.services[q].made then
        v' == MQ.Pushed(v, t.m) && s'.global == if MQ.Outside(v) then s.global + [q] else s.global
      else if a.Mark? && q == t.q then
        v' == MQ.Marked(v) && !v.release && s'.global == if MQ.Outside(v) then s.global + [q] else s.global
      else if (a.Take? || a.Drain?) && q == t.q then v' == MQ.Popped(v)
      else v' == v
  {
    hide Inv, Share, Count, ServiceOk, Taken, Linked;
    InvWf(s);
    ThreadAt(s, i);
    if s.threads[i].Deleting? { NotMarked(s, i); }
  }

  lemma {:induction false} QueueStays(s: State, i: nat, a: Action, q: nat)
    requires Inv(s) && Enabled(s, i, a) && q < |s.services| && !a.Push? && !a.Mark? && !a.Take? && !a.Drain?
    ensures var s' := Step(s, i, a); q < |s'.services| && QueueOf(s'.services[q]) == QueueOf(s.services[q])
  {
    hide Inv, Share, Count, ServiceOk, Taken, Linked;
    InvWf(s);
    ThreadAt(s, i);
  }

  lemma {:induction false} NotMarked(s: State, i: nat)
    requires Inv(s) && i < |s.threads| && s.threads[i].Deleting?
    ensures s.threads[i].q < |s.services| && !s.services[s.threads[i].q].release
  {
    var q, t := s.threads[i].q, s.threads[i];
    ThreadAt(s, i);
    ServiceAt(s, q);
    CountAtLeast(s.threads, i, q, Deletion);
  }

  /** Whoever has a queue, a counted reference or a deletion to do, and whoever finds a queue in the
      global queue, has something that exists. */
  lemma CountedUseSafe(threads: nat, run: seq<(nat, Action)>, s: State, i: nat, q: nat)
    requires Runs(Initial(threads), run, s) && i < |s.threads| && q < |s.services|
    ensures Share(s.threads[i], q, Queue) > 0 ==> !s.services[q].freed
    ensures Share(s.threads[i], q, Reference) > 0 ==>
              s.services[q].ref > 0 && !s.services[q].release && !s.services[q].freed
    ensures Share(s.threads[i], q, Deletion) > 0 ==> !s.services[q].release && !s.services[q].freed
    ensures q in s.global ==> !s.services[q].freed
  {
    Reachable(threads, run, s);
    ServiceAt(s, q);
    CountAtLeast(s.threads, i, q, Queue);
    CountAtLeast(s.threads, i, q, Reference);
    CountAtLeast(s.threads, i, q, Deletion);
  }

  // ----- an idle thread gets its work done -----

  /** From every reachable state an idle worker hands over the oldest message of the first queue in the
      global queue, if its service is registered. */
  lemma {:induction false} WorkerDelivers(s: State, i: nat, q: nat, more: bool) returns (s': State)
    requires Inv(s) && i < |s.threads| && s.threads[i].Idle?
    requires s.global != [] && q == s.global[0] && q < |s.services|
    requires s.services[q].registered && s.services[q].msgs != []
    ensures Runs(s, [(i, PopGlobal)] + ([(i, Grab)] + [(i, Take(more))]), s')
    ensures s'.global == s.global[1..] && |s'.services| == |s.services|
    ensures var (v, v') := (s.services[q], s'.services[q]);
      && v'.msgs == v.msgs[1..] && v'.sent == v.sent
      && v'.log == v.log + [(v.msgs[0], if v.callback then Called else Discarded)]
  {
    var s1 := PopStep(s, i);
    StepKeeps(s, i, PopGlobal);
    var s2 := GrabStep(s1, i);
    StepKeeps(s1, i, Grab);
    s' := TakeStep(s2, i, more);
    hide Step, Enabled, Wf, Inv;
    StepRuns(s2, i, Take(more), [], s');
    assert [(i, Take(more))] + [] == [(i, Take(more))];
    StepRuns(s1, i, Grab, [(i, Take(more))], s');
    StepRuns(s, i, PopGlobal, [(i, Grab)] + [(i, Take(more))], s');
  }

  lemma {:induction false} PopStep(s: State, i: nat) returns (s': State)
    requires Inv(s) && i < |s.threads| && s.threads[i].Idle? && s.global != []
    ensures Wf(s) && Enabled(s, i, PopGlobal) && s' == Step(s, i, PopGlobal)
    ensures s' == State(s.services, s.global[1..], s.threads[i := Holding(s.global[0])])
  {
    InvWf(s);
    s' := Step(s, i, PopGlobal);
  }

  lemma {:induction false} GrabStep(s: State, i: nat) returns (s': State)
    requires Inv(s) && i < |s.threads| && s.threads[i].Holding?
    ensures Wf(s) && Enabled(s, i, Grab) && s' == Step(s, i, Grab)
    ensures var q := s.threads[i].q;
      q < |s.services| &&
      var v := s.services[q];
      v.registered ==>
        s' == State(s.services[q := v.(ref := v.ref + 1)], s.global, s.threads[i := Running(q)])
  {
    hide Inv;
    InvWf(s);
    assert Known(s.threads[i], |s.services|);
    s' := Step(s, i, Grab);
  }

  lemma {:induction false} TakeStep(s: State, i: nat, more: bool) returns (s': State)
    requires Inv(s) && i < |s.threads| && s.threads[i].Running?
    ensures Wf(s) && Enabled(s, i, Take(more)) && s' == Step(s, i, Take(more))
    ensures var q := s.threads[i].q;
      q < |s.services| &&
      var v := s.services[q];
      v.msgs != [] ==>
        s' == State(s.services[q := v.(msgs := v.msgs[1..],
                                       log := v.log + [(v.msgs[0], if v.callback then Called else Discarded)])],
                    s.global, s.threads[i := if more then Running(q) else Finished(q)])
  {
    hide Inv;
    InvWf(s);
    assert Known(s.threads[i], |s.services|);
    s' := Step(s, i, Take(more));
  }

  /** And an idle sender appends its message to the queue of a registered service that has one, links
      that queue if it was outside, and is idle again. */
  lemma {:induction false} SenderQueues(s: State, i: nat, q: nat, m: Message) returns (s': State)
    requires Inv(s) && i < |s.threads| && s.threads[i].Idle?
    requires q < |s.services| && s.services[q].registered && s.services[q].made
    ensures Runs(s, [(i, GrabToSend(q, m))] + ([(i, Push)] + [(i, Release)]), s')
    ensures var v := s.services[q];
      s' == State(s.services[q := v.(msgs := v.msgs + [m], sent := v.sent + [m], inGlobal := true)],
                  if v.inGlobal then s.global else s.global + [q], s.threads)
  {
    var s1 := SendStep(s, i, q, m);
    StepKeeps(s, i, GrabToSend(q, m));
    var s2 := PushStep(s1, i);
    StepKeeps(s1, i, Push);
    s' := SentStep(s2, i);
    HasReference(s, q);
    hide Step, Enabled, Wf, Inv;
    StepRuns(s2, i, Release, [], s');
    assert [(i, Release)] + [] == [(i, Release)];
    StepRuns(s1, i, Push, [(i, Release)], s');
    StepRuns(s, i, GrabToSend(q, m), [(i, Push)] + [(i, Release)], s');
    assert s.threads[i := Sending(q, m)][i := Sent(q)][i := Idle] == s.threads;
  }

  lemma {:induction false} SendStep(s: State, i: nat, q: nat, m: Message) returns (s': State)
    requires Inv(s) && i < |s.threads| && s.threads[i].Idle? && q < |s.services| && s.services[q].registered
    ensures Wf(s) && Enabled(s, i, GrabToSend(q, m)) && s' == Step(s, i, GrabToSend(q, m))
    ensures var v := s.services[q];
      s' == State(s.services[q := v.(ref := v.ref + 1)], s.global, s.threads[i := Sending(q, m)])
  {
    InvWf(s);
    s' := Step(s, i, GrabToSend(q, m));
  }

  lemma {:induction false} PushStep(s: State, i: nat) returns (s': State)
    requires Inv(s) && i < |s.threads| && s.threads[i].Sending?
    ensures Wf(s) && Enabled(s, i, Push) && s' == Step(s, i, Push)
    ensures var (q, m) := (s.threads[i].q, s.threads[i].m);
      q < |s.services| &&
      var v := s.services[q];
      v.made ==>
        s' == State(s.services[q := v.(msgs := v.msgs + [m], sent := v.sent + [m], inGlobal := true)],
                    if v.inGlobal then s.global else s.global + [q], s.threads[i := Sent(q)])
  {
    hide Inv;
    InvWf(s);
    assert Known(s.threads[i], |s.services|);
    s' := Step(s, i, Push);
  }

  lemma {:induction false} SentStep(s: State, i: nat) returns (s': State)
    requires Inv(s) && i < |s.threads| && s.threads[i].Sent?
    ensures Wf(s) && Enabled(s, i, Release) && s' == Step(s, i, Release)
    ensures var q := s.threads[i].q;
      q < |s.services| &&
      var v := s.services[q];
      v.ref != 1 ==> s' == State(s.services[q := v.(ref := v.ref - 1)], s.global, s.threads[i := Idle])
  {
    hide Inv;
    InvWf(s);
    assert Known(s.threads[i], |s.services|);
    s' := Step(s, i, Release);
  }

  lemma {:induction false} HasReference(s: State, q: nat)
    requires Inv(s) && q < |s.services| && s.services[q].registered
    ensures s.services[q].ref > 0
  {
    ServiceAt(s, q);
  }

  /** An idle thread creates a service: it ends registered, with its queue linked, its callback set and
      `init` true, and the thread idle. */
  lemma {:induction false} CreatorLaunches(s: State, i: nat) returns (s': State)
    requires Inv(s) && i < |s.threads| && s.threads[i].Idle?
    ensures Runs(s, [(i, Create)] + ([(i, MakeQueue)] + ([(i, SetCallback(true))] + ([(i, InitOk)]
                    + ([(i, SetInit)] + ([(i, Publish)] + [(i, Log)]))))), s')
    ensures s' == State(s.services + [Service(1, true, true, true, true, [], true, false, false, [], [])],
                        s.global + [|s.services|], s.threads)
  {
    hide Step, Enabled, Wf, Inv, Runs;
    var s1 := CreateNew(s, i);
    s' := LaunchInit(s1, i);
    StepRuns(s, i, Create, [(i, MakeQueue)] + ([(i, SetCallback(true))] + ([(i, InitOk)] + ([(i, SetInit)]
      + ([(i, Publish)] + [(i, Log)])))), s');
    assert s.threads[i := Idle] == s.threads;
  }

  lemma {:induction false} LaunchInit(s: State, i: nat) returns (s': State)
    requires Inv(s) && s.services != [] && i < |s.threads| && s.threads[i] == Registering(|s.services| - 1)
    requires s.services[|s.services| - 1].ref == 2
    ensures Runs(s, [(i, MakeQueue)] + ([(i, SetCallback(true))] + ([(i, InitOk)] + ([(i, SetInit)]
                    + ([(i, Publish)] + [(i, Log)])))), s')
    ensures var q := |s.services| - 1;
      s' == Launched(s, i, s.services[q].(made := true, callback := true, ref := 1, init := true), Idle)
              .(global := s.global + [q])
  {
    hide Step, Enabled, Wf, Inv, Runs;
    var s1 := LaunchStep(s, i, MakeQueue);
    s' := LaunchCallback(s1, i);
    StepRuns(s, i, MakeQueue, [(i, SetCallback(true))] + ([(i, InitOk)] + ([(i, SetInit)]
      + ([(i, Publish)] + [(i, Log)]))), s');
  }

  lemma {:induction false} LaunchCallback(s: State, i: nat) returns (s': State)
    requires Inv(s) && s.services != [] && i < |s.threads| && s.threads[i] == Creating(|s.services| - 1)
    requires s.services[|s.services| - 1].ref == 2
    ensures Runs(s, [(i, SetCallback(true))] + ([(i, InitOk)] + ([(i, SetInit)] + ([(i, Publish)] + [(i, Log)]))), s')
    ensures var q := |s.services| - 1;
      s' == Launched(s, i, s.services[q].(callback := true, ref := 1, init := true), Idle)
              .(global := s.global + [q])
  {
    hide Step, Enabled, Wf, Inv, Runs;
    var s1 := LaunchStep(s, i, SetCallback(true));
    s' := LaunchOk(s1, i);
    StepRuns(s, i, SetCallback(true), [(i, InitOk)] + ([(i, SetInit)] + ([(i, Publish)] + [(i, Log)])), s');
  }

  lemma {:induction false} LaunchOk(s: State, i: nat) returns (s': State)
    requires Inv(s) && s.services != [] && i < |s.threads| && s.threads[i] == Creating(|s.services| - 1)
    requires s.services[|s.services| - 1].ref == 2
    ensures Runs(s, [(i, InitOk)] + ([(i, SetInit)] + ([(i, Publish)] + [(i, Log)])), s')
    ensures var q := |s.services| - 1;
      s' == Launched(s, i, s.services[q].(ref := 1, init := true), Idle).(global := s.global + [q])
  {
    hide Step, Enabled, Wf, Inv, Runs;
    var s1 := LaunchStep(s, i, InitOk);
    s' := LaunchRest(s1, i);
    StepRuns(s, i, InitOk, [(i, SetInit)] + ([(i, Publish)] + [(i, Log)]), s');
  }

  lemma {:induction false} LaunchRest(s: State, i: nat) returns (s': State)
    requires Inv(s) && s.services != [] && i < |s.threads| && s.threads[i] == Created(|s.services| - 1)
    ensures Runs(s, [(i, SetInit)] + ([(i, Publish)] + [(i, Log)]), s')
    ensures var q := |s.services| - 1;
      s' == Launched(s, i, s.services[q].(init := true), Idle).(global := s.global + [q])
  {
    hide Step, Enabled, Wf, Inv;
    var s1 := LaunchStep(s, i, SetInit);
    var s2 := LaunchStep(s1, i, Publish);
    s' := LaunchStep(s2, i, Log);
    StepRuns(s2, i, Log, [], s');
    assert [(i, Log)] + [] == [(i, Log)];
    StepRuns(s1, i, Publish, [(i, Log)], s');
    StepRuns(s, i, SetInit, [(i, Publish)] + [(i, Log)], s');
  }

  /** The last service becomes `v`, and thread `i` goes on as `t`. */
  function Launched(s: State, i: nat, v: Service, t: Thread): State
    requires i < |s.threads| && s.services != []
  {
    s.(services := s.services[|s.services| - 1 := v], threads := s.threads[i := t])
  }

  lemma {:induction false} CreateNew(s: State, i: nat) returns (s': State)
    requires Inv(s) && i < |s.threads| && s.threads[i].Idle?
    ensures Wf(s) && Enabled(s, i, Create) && s' == Step(s, i, Create) && Inv(s')
    ensures s' == State(s.services + [Service(2, true, false, false, false, [], true, false, false, [], [])],
                        s.global, s.threads[i := Registering(|s.services|)])
  {
    hide Inv;
    InvWf(s);
    StepKeeps(s, i, Create);
    s' := Step(s, i, Create);
  }

  lemma {:induction false} LaunchStep(s: State, i: nat, a: Action) returns (s': State)
    requires Inv(s) && i < |s.threads| && s.services != []
    requires var (t, q) := (s.threads[i], |s.services| - 1);
      || (a == MakeQueue && t == Registering(q))
      || (a == SetCallback(true) && t == Creating(q))
      || (a == InitOk && t == Creating(q) && s.services[q].ref == 2)
      || (a == SetInit && t == Created(q)) || (a == Publish && t == Publishing(q, true))
      || (a == Log && t == Logging(q))
    ensures Wf(s) && Enabled(s, i, a) && s' == Step(s, i, a) && Inv(s')
    ensures var (t, q) := (s.threads[i], |s.services| - 1);
      var v := s.services[q];
      && (a == MakeQueue ==> s' == Launched(s, i, v.(made := true), Creating(q)))
      && (a == SetCallback(true) ==> s' == Launched(s, i, v.(callback := true), t))
      && (a == InitOk ==> s' == Launched(s, i, v.(ref := 1), Created(q)))
      && (a == SetInit ==> s' == Launched(s, i, v.(init := true), Publishing(q, true)))
      && (a == Publish ==> s' == Launched(s, i, v, Logging(q)).(global := s.global + [q]))
      && (a == Log ==> s' == Launched(s, i, v, Idle))
  {
    hide Inv;
    InvWf(s);
    StepKeeps(s, i, a);
    s' := Step(s, i, a);
  }

  // ----- the creator's context, used without a reference -----

  lemma {:induction false} SomeoneCounts(ts: seq<Thread>, n: nat, kind: Kind)
    ensures Count(ts, n, kind) > 0 <==> exists j | 0 <= j < |ts| :: Share(ts[j], n, kind) > 0
    decreases ts
  {
    if ts != [] {
      SomeoneCounts(ts[1..], n, kind);
      if Share(ts[0], n, kind) == 0 && Count(ts, n, kind) > 0 {
        var j :| 0 <= j < |ts[1..]| && Share(ts[1..][j], n, kind) > 0;
        assert Share(ts[j + 1], n, kind) > 0;
      }
      if j :| 0 <= j < |ts| && Share(ts[j], n, kind) > 0 { CountAtLeast(ts, j, n, kind); }
    }
  }

  /** At every moment a context is still there, and no thread deletes it, exactly if the service is
      registered or some thread has a counted reference. Its creator, who sets `ctx->init` and logs with
      the reference given back, is safe exactly then. */
  lemma {:induction false} UncountedUseSafe(threads: nat, run: seq<(nat, Action)>, s: State, q: nat)
    requires Runs(Initial(threads), run, s) && q < |s.services|
    ensures var v := s.services[q];
      (!v.release && !exists j | 0 <= j < |s.threads| :: Share(s.threads[j], q, Deletion) > 0)
      <==> (v.registered || exists j | 0 <= j < |s.threads| :: Share(s.threads[j], q, Reference) > 0)
  {
    Reachable(threads, run, s);
    ServiceAt(s, q);
    SomeoneCounts(s.threads, q, Reference);
    SomeoneCounts(s.threads, q, Deletion);
  }

  /** A service as it is launched, by thread 0 of two. */
  function Launching(ref: int, registered: bool, init: bool, release: bool, global: seq<nat>, creator: Thread,
                     killer: Thread): State
  {
    State([Service(ref, registered, true, init, false, [], true, release, false, [], [])], global, [creator, killer])
  }

  lemma {:induction false} StepRuns(s: State, i: nat, a: Action, rest: seq<(nat, Action)>, s': State)
    requires Wf(s) && Enabled(s, i, a) && Runs(Step(s, i, a), rest, s')
    ensures Runs(s, [(i, a)] + rest, s')
  {
    assert ([(i, a)] + rest)[1..] == rest;
  }

  const RetireAndDelete: seq<(nat, Action)> := [(1, Retire(0)), (1, Release), (1, Mark)]

  lemma {:induction false} KillerSteps(init: bool, global: seq<nat>, creator: Thread)
    requires forall k | 0 <= k < |global| :: global[k] == 0
    requires creator in {Created(0), Logging(0)}
    ensures var s0 := Launching(1, true, init, false, global, creator, Idle);
            var s1 := Launching(1, false, init, false, global, creator, Retired(0));
            var s2 := Launching(0, false, init, false, global, creator, Deleting(0, Idle));
            && Wf(s0) && Enabled(s0, 1, Retire(0)) && Step(s0, 1, Retire(0)) == s1
            && Wf(s1) && Enabled(s1, 1, Release) && Step(s1, 1, Release) == s2
            && Wf(s2) && Enabled(s2, 1, Mark)
              && Step(s2, 1, Mark) == Launching(0, false, init, true, global, creator, Idle)
  {
  }

  /** While the creator is on its way, another thread retires the service and deletes its context. */
  lemma {:induction false} KillerRuns(init: bool, global: seq<nat>, creator: Thread)
    requires forall k | 0 <= k < |global| :: global[k] == 0
    requires creator in {Created(0), Logging(0)}
    ensures Runs(Launching(1, true, init, false, global, creator, Idle), RetireAndDelete,
                 Launching(0, false, init, true, global, creator, Idle))
  {
    hide Step, Launching, Enabled, Wf;
    var s0 := Launching(1, true, init, false, global, creator, Idle);
    var s1 := Launching(1, false, init, false, global, creator, Retired(0));
    var s2 := Launching(0, false, init, false, global, creator, Deleting(0, Idle));
    var s3 := Launching(0, false, init, true, global, creator, Idle);
    KillerSteps(init, global, creator);
    StepRuns(s2, 1, Mark, [], s3);
    StepRuns(s1, 1, Release, [(1, Mark)], s3);
    assert [(1, Release)] + [(1, Mark)] == [(1, Release), (1, Mark)];
    StepRuns(s0, 1, Retire(0), [(1, Release), (1, Mark)], s3);
    assert [(1, Retire(0))] + [(1, Release), (1, Mark)] == RetireAndDelete;
  }

  lemma {:induction false} CreatorRuns(rest: seq<(nat, Action)>, s: State)
    requires Runs(Launching(1, true, false, false, [], Created(0), Idle), rest, s)
    ensures Runs(Initial(2), [(0, Create)] + ([(0, MakeQueue)] + ([(0, InitOk)] + rest)), s)
  {
    hide Step, Launching, Enabled, Wf, Registered;
    var s0 := Registered();
    var s1 := Launching(2, true, false, false, [], Creating(0), Idle);
    var s2 := Launching(1, true, false, false, [], Created(0), Idle);
    CreatorSteps();
    StepRuns(s1, 0, InitOk, rest, s);
    StepRuns(s0, 0, MakeQueue, [(0, InitOk)] + rest, s);
    StepRuns(Initial(2), 0, Create, [(0, MakeQueue)] + ([(0, InitOk)] + rest), s);
  }

  /** A service whose queue is not made yet. */
  function Registered(): State
  {
    State([Service(2, true, false, false, false, [], true, false, false, [], [])], [], [Registering(0), Idle])
  }

  lemma {:induction false} CreatorSteps()
    ensures var s1 := Launching(2, true, false, false, [], Creating(0), Idle);
            && Wf(Initial(2)) && Enabled(Initial(2), 0, Create) && Step(Initial(2), 0, Create) == Registered()
            && Wf(Registered()) && Enabled(Registered(), 0, MakeQueue) && Step(Registered(), 0, MakeQueue) == s1
            && Wf(s1) && Enabled(s1, 0, InitOk)
            && Step(s1, 0, InitOk) == Launching(1, true, false, false, [], Created(0), Idle)
  {
    hide Step, Enabled, Wf, Registered, Launching;
    CreateStep();
    MakeStep();
    InitStep();
  }

  lemma {:induction false} CreateStep()
    ensures Wf(Initial(2)) && Enabled(Initial(2), 0, Create) && Step(Initial(2), 0, Create) == Registered()
  {
    assert Initial(2) == State([], [], [Idle, Idle]);
  }

  lemma {:induction false} MakeStep()
    ensures Wf(Registered()) && Enabled(Registered(), 0, MakeQueue)
    ensures Step(Registered(), 0, MakeQueue) == Launching(2, true, false, false, [], Creating(0), Idle)
  {
  }

  lemma {:induction false} InitStep()
    ensures var s1 := Launching(2, true, false, false, [], Creating(0), Idle);
            && Wf(s1) && Enabled(s1, 0, InitOk)
            && Step(s1, 0, InitOk) == Launching(1, true, false, false, [], Created(0), Idle)
  {
  }

  lemma {:induction false} LaunchRuns(rest: seq<(nat, Action)>, s: State)
    requires Runs(Launching(1, true, true, false, [0], Logging(0), Idle), rest, s)
    ensures Runs(Launching(1, true, false, false, [], Created(0), Idle), [(0, SetInit)] + ([(0, Publish)] + rest), s)
  {
    hide Step, Launching, Enabled, Wf;
    var s1 := Launching(1, true, false, false, [], Created(0), Idle);
    var s2 := Launching(1, true, true, false, [], Publishing(0, true), Idle);
    LaunchSteps();
    StepRuns(s2, 0, Publish, rest, s);
    StepRuns(s1, 0, SetInit, [(0, Publish)] + rest, s);
  }

  lemma {:induction false} LaunchSteps()
    ensures var s1 := Launching(1, true, false, false, [], Created(0), Idle);
            var s2 := Launching(1, true, true, false, [], Publishing(0, true), Idle);
            && Wf(s1) && Enabled(s1, 0, SetInit) && Step(s1, 0, SetInit) == s2
            && Wf(s2) && Enabled(s2, 0, Publish)
            && Step(s2, 0, Publish) == Launching(1, true, true, false, [0], Logging(0), Idle)
  {
  }

  /** The context can be gone when `ctx->init` is to be set. */
  lemma {:induction false} InitAfterDelete() returns (s: State)
    ensures Runs(Initial(2), [(0, Create)] + ([(0, MakeQueue)] + ([(0, InitOk)] + RetireAndDelete)), s)
    ensures s.threads == [Created(0), Idle] && |s.services| == 1 && s.services[0].release
  {
    s := Launching(0, false, false, true, [], Created(0), Idle);
    KillerRuns(false, [], Created(0));
    CreatorRuns(RetireAndDelete, s);
  }

  /** And when the launch is to be logged. */
  lemma {:induction false} LogAfterDelete() returns (s: State)
    ensures Runs(Initial(2), [(0, Create)] + ([(0, MakeQueue)] + ([(0, InitOk)] + ([(0, SetInit)] + ([(0, Publish)]
                 + RetireAndDelete)))), s)
    ensures s.threads == [Logging(0), Idle] && |s.services| == 1 && s.services[0].release
  {
    s := Launching(0, false, true, true, [0], Logging(0), Idle);
    KillerRuns(true, [0], Logging(0));
    LaunchRuns(RetireAndDelete, s);
    CreatorRuns([(0, SetInit)] + ([(0, Publish)] + RetireAndDelete), s);
  }

  // ----- a context without a queue -----

  /** A context has no queue exactly while its creator is between registration and the queue. */
  ghost predicate QueuesMade(s: State)
  {
    && (forall i | 0 <= i < |s.threads| && s.threads[i].Registering? ::
          s.threads[i].q < |s.services| && !s.services[s.threads[i].q].made)
    && (forall q {:trigger s.services[q]} | 0 <= q < |s.services| && !s.services[q].made ::
          exists i :: 0 <= i < |s.threads| && s.threads[i] == Registering(q))
    && (forall i | 0 <= i < |s.threads| && s.threads[i].Deleting? :: !s.threads[i].next.Registering?)
  }

  lemma {:induction false} OneRegisters(s: State, i: nat, j: nat)
    requires Inv(s) && i < |s.threads| && j < |s.threads| && s.threads[i] == s.threads[j] && s.threads[i].Registering?
    ensures i == j
  {
    var q := s.threads[i].q;
    assert Known(s.threads[i], |s.services|);
    ServiceAt(s, q);
    if i < j { CountTwo(s.threads, i, j, q, Kind.Queue); }
    if j < i { CountTwo(s.threads, j, i, q, Kind.Queue); }
  }

  /** What a step does to `made`, and who registers after it. */
  lemma {:induction false} StepMakes(s: State, i: nat, a: Action)
    requires Wf(s) && Enabled(s, i, a)
    requires s.threads[i].Deleting? ==> !s.threads[i].next.Registering? && !s.threads[i].next.Deleting?
    ensures var s', t := Step(s, i, a), s.threads[i];
      && |s'.threads| == |s.threads| && |s.services| <= |s'.services|
      && (forall j | 0 <= j < |s.threads| && j != i :: s'.threads[j] == s.threads[j])
      && (a.Create? ==> s'.threads[i] == Registering(|s.services|) && |s'.services| == |s.services| + 1)
      && (a.Create? ==> !s'.services[|s.services|].made)
      && (!a.Create? ==> |s'.services| == |s.services| && !s'.threads[i].Registering?)
      && (forall q | 0 <= q < |s.services| ::
            s'.services[q].made == (s.services[q].made || (a.MakeQueue? && q == t.q)))
      && (t.Registering? ==> a.MakeQueue?)
      && (s'.threads[i].Deleting? ==> !s'.threads[i].next.Registering?)
  {
    assert Known(s.threads[i], |s.services|);
  }

  lemma {:induction false} StepQueuesMade(s: State, i: nat, a: Action)
    requires Inv(s) && QueuesMade(s) && Enabled(s, i, a)
    ensures QueuesMade(Step(s, i, a))
  {
    var s', t := Step(s, i, a), s.threads[i];
    assert ThreadOk(s, t);
    StepMakes(s, i, a);
    hide Step, Enabled, ThreadOk;
    forall j | 0 <= j < |s'.threads| && s'.threads[j].Registering?
      ensures s'.threads[j].q < |s'.services| && !s'.services[s'.threads[j].q].made
    {
      if j != i && a.MakeQueue? && s.threads[j].q == t.q { OneRegisters(s, i, j); }
    }
    forall q | 0 <= q < |s'.services| && !s'.services[q].made
      ensures exists j :: 0 <= j < |s'.threads| && s'.threads[j] == Registering(q)
    {
      if q == |s.services| {
        assert s'.threads[i] == Registering(q);
      } else {
        var j :| 0 <= j < |s.threads| && s.threads[j] == Registering(q);
        assert s'.threads[j] == Registering(q);
      }
    }
  }

  lemma {:induction false} RunsMake(s: State, run: seq<(nat, Action)>, s': State)
    requires Inv(s) && QueuesMade(s) && Runs(s, run, s')
    ensures Inv(s') && QueuesMade(s')
    decreases run
  {
    if run != [] {
      StepKeeps(s, run[0].0, run[0].1);
      StepQueuesMade(s, run[0].0, run[0].1);
      RunsMake(Step(s, run[0].0, run[0].1), run[1..], s');
    }
  }

  /** Whoever has grabbed a handle and pushes finds a queue if and only if the creator is not between
      `skynet_handle_register` and the queue. */
  lemma {:induction false} PushFindsQueue(threads: nat, run: seq<(nat, Action)>, s: State, i: nat)
    requires Runs(Initial(threads), run, s) && i < |s.threads| && s.threads[i].Sending?
    ensures Wf(s) && Enabled(s, i, Push)
    ensures Step(s, i, Push).threads[i]
            == if exists j :: 0 <= j < |s.threads| && s.threads[j] == Registering(s.threads[i].q)
               then Faulted(s.threads[i].q) else Sent(s.threads[i].q)
  {
    RunsMake(Initial(threads), run, s);
    assert Known(s.threads[i], |s.services|);
  }

  /** Such a run. */
  lemma {:induction false} PushBeforeQueue(m: Message) returns (s: State)
    ensures Runs(Initial(2), [(0, Create)] + ([(1, GrabToSend(0, m))] + [(1, Push)]), s)
    ensures s.threads == [Registering(0), Faulted(0)]
  {
    hide Step, Enabled, Wf, Registered, Launching;
    CreatorSteps();
    var s1;
    s1, s := EarlyPush(m);
    StepRuns(s1, 1, Push, [], s);
    assert [(1, Push)] + [] == [(1, Push)];
    StepRuns(Registered(), 1, GrabToSend(0, m), [(1, Push)], s);
    StepRuns(Initial(2), 0, Create, [(1, GrabToSend(0, m))] + [(1, Push)], s);
  }

  lemma {:induction false} EarlyPush(m: Message) returns (s1: State, s2: State)
    ensures Wf(Registered()) && Enabled(Registered(), 1, GrabToSend(0, m))
    ensures s1 == Step(Registered(), 1, GrabToSend(0, m)) && Wf(s1) && Enabled(s1, 1, Push)
    ensures s2 == Step(s1, 1, Push) && s2.threads == [Registering(0), Faulted(0)]
  {
    s1 := Registered();
    var v := s1.services[0];
    s1 := State([v.(ref := 3)], [], [Registering(0), Sending(0, m)]);
    s2 := State([v.(ref := 3)], [], [Registering(0), Faulted(0)]);
  }

  /** Freeing is final: from a freed queue on, nothing about the service changes, so it is dropped
      once. */
  lemma FreedStays(s: State, i: nat, a: Action, q: nat)
    requires Inv(s) && Enabled(s, i, a) && q < |s.services| && s.services[q].freed
    ensures q < |Step(s, i, a).services| && Step(s, i, a).services[q] == s.services[q]
  {
    ServiceAt(s, q);
    CountAtLeast(s.threads, i, q, Queue);
    CountAtLeast(s.threads, i, q, Reference);
    CountAtLeast(s.threads, i, q, Deletion);
  }
}