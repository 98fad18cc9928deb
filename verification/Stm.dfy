/** The copies of lua-stm.c: one writer and any number of readers around a reader/writer lock, each
    step one atomic access. Thread 0 is the writer. The shell around the lock is never freed here. */
module Stm {

  import opened Basics
  import opened RwLock

  /** A copy: its count, and how often it was given back to the allocator. */
  datatype Copy = Copy(reference: int, frees: nat)

  /** Where a thread is, with the copies its local variables hold. */
  datatype Prog =
    | Idle
    // `stm_copy` of a reader, and what `lread` does with the result
    | ReadLock                    // in the lock's code; inside it, reads `copy`
    | ReadGot(ret: nat)           // will raise its count
    | ReadOut(got: Option<nat>)   // will leave the lock
    | Compare(got: Option<nat>)   // with the copy read last
    | Use                         // the callback reads the message of the last copy
    // `stm_update` of the writer
    | UpdateLock(copy: nat)
    | UpdateSwap(copy: nat, was: Option<nat>)
    | UpdateOut(was: Option<nat>)
    // `stm_release` of the writer, which lowers the count inside the lock
    | DeleteLock
    | DeleteFree(c: nat)
    | DeleteNull
    | DeleteOut
    // `stm_releasecopy`, and where it goes on
    | Drop(held: Option<nat>, next: Then)
    | Free(c: nat, next: Then)
    | Gone

  /** After a copy is let go: nothing more, or a newer one becomes the last. */
  datatype Then = Nothing | Install(got: Option<nat>) | End

  datatype Thread = Thread(prog: Prog, last: Option<nat>)

  /** The shared object, the threads, the copies ever made, and whether a freed copy was touched. */
  datatype State = State(lock: Lock, threads: seq<Thread>, current: Option<nat>, copies: seq<Copy>, fault: bool)

  datatype Choice = Read | Update | Delete | Quit | Wait

  function SetThread(s: State, t: nat, p: Prog): State
    requires t < |s.threads|
  {
    s.(threads := s.threads[t := s.threads[t].(prog := p)])
  }

  function SetLast(s: State, t: nat, p: Prog, last: Option<nat>): State
    requires t < |s.threads|
  {
    s.(threads := s.threads[t := Thread(p, last)])
  }

  /** An atomic change of a count; touching a freed copy is a fault. */
  function Count(s: State, c: nat, d: int): State
  {
    if c < |s.copies| then
      s.(copies := s.copies[c := s.copies[c].(reference := s.copies[c].reference + d)],
         fault := s.fault || s.copies[c].frees > 0)
    else
      s.(fault := true)
  }

  /** `skynet_free` of a message and its copy. */
  function Freed(s: State, c: nat): State
  {
    if c < |s.copies| then
      s.(copies := s.copies[c := s.copies[c].(frees := s.copies[c].frees + 1)],
         fault := s.fault || s.copies[c].frees > 0)
    else
      s.(fault := true)
  }

  function Touch(s: State, c: nat): State
  {
    s.(fault := s.fault || c >= |s.copies| || s.copies[c].frees > 0)
  }

  function Inside(s: State, t: nat, w: Wish): State
    requires t < |s.lock.at|
  {
    s.(lock := Turn(s.lock, t, w))
  }

  /** `stm_releasecopy`, up to the test for the last reference. */
  function Release(s: State, t: nat, c: Option<nat>, next: Then): State
    requires t < |s.threads|
  {
    if c.None? then Continue(s, t, next)
    else
      var s1 := Count(s, c.value, -1);
      if c.value < |s.copies| && s1.copies[c.value].reference == 0 then SetThread(s1, t, Free(c.value, next))
      else Continue(s1, t, next)
  }

  function Continue(s: State, t: nat, next: Then): State
    requires t < |s.threads|
  {
    match next
    case Nothing => SetThread(s, t, Idle)
    case End => SetThread(s, t, Gone)
    case Install(got) => SetLast(s, t, if got.Some? then Use else Idle, got)
  }

  /** What a thread with nothing to do begins. */
  function Begin(s: State, t: nat, choice: Choice): State
    requires t < |s.threads| && t < |s.lock.at|
  {
    var th := s.threads[t];
    if t > 0 && choice == Read then
      Inside(SetThread(s, t, ReadLock), t, ToRead)
    else if t > 0 && choice == Quit then
      SetLast(s, t, Drop(th.last, End), None)
    else if t == 0 && choice == Update then
      var c := |s.copies|;
      Inside(SetThread(s.(copies := s.copies + [Copy(1, 0)]), t, UpdateLock(c)), t, ToWrite)
    else if t == 0 && choice == Delete then
      Inside(SetThread(s, t, DeleteLock), t, ToWrite)
    else s
  }

  /** `stm_copy`, and `lread` with its result. */
  function ReadStep(s: State, t: nat): State
    requires t < |s.threads| && t < |s.lock.at| && Reads(s.threads[t].prog)
  {
    var th := s.threads[t];
    match th.prog
    case ReadLock =>
      if s.lock.at[t] != Reading then Inside(s, t, Neither)
      else SetThread(s, t, if s.current.Some? then ReadGot(s.current.value) else ReadOut(None))
    case ReadGot(c) => SetThread(Count(s, c, 1), t, ReadOut(Some(c)))
    case ReadOut(got) => Inside(SetThread(s, t, Compare(got)), t, Neither)
    case Compare(got) =>
      if got == th.last then SetThread(s, t, Drop(got, Nothing))
      else SetLast(s, t, Drop(th.last, Install(got)), None)
    case Use => SetThread(if th.last.Some? then Touch(s, th.last.value) else s, t, Idle)
  }

  /** `stm_update` */
  function UpdateStep(s: State, t: nat): State
    requires t < |s.threads| && t < |s.lock.at| && Updates(s.threads[t].prog)
  {
    match s.threads[t].prog
    case UpdateLock(c) =>
      if s.lock.at[t] != Writing then Inside(s, t, Neither) else SetThread(s, t, UpdateSwap(c, s.current))
    case UpdateSwap(c, was) => SetThread(s.(current := Some(c)), t, UpdateOut(was))
    case UpdateOut(was) => Inside(SetThread(s, t, Drop(was, Nothing)), t, Neither)
  }

  /** `stm_release` */
  function DeleteStep(s: State, t: nat): State
    requires t < |s.threads| && t < |s.lock.at| && Deletes(s.threads[t].prog)
  {
    match s.threads[t].prog
    case DeleteLock =>
      if s.lock.at[t] != Writing then Inside(s, t, Neither)
      else if s.current.None? then SetThread(s, t, DeleteNull)
      else
        var s1 := Count(s, s.current.value, -1);
        var gone := s.current.value < |s.copies| && s1.copies[s.current.value].reference == 0;
        SetThread(s1, t, if gone then DeleteFree(s.current.value) else DeleteNull)
    case DeleteFree(c) => SetThread(Freed(s, c), t, DeleteNull)
    case DeleteNull => SetThread(s.(current := None), t, DeleteOut)
    case DeleteOut => Inside(SetThread(s, t, Gone), t, Neither)
  }

  predicate Reads(p: Prog)
  {
    p.ReadLock? || p.ReadGot? || p.ReadOut? || p.Compare? || p.Use?
  }

  predicate Updates(p: Prog)
  {
    p.UpdateLock? || p.UpdateSwap? || p.UpdateOut?
  }

  predicate Deletes(p: Prog)
  {
    p.DeleteLock? || p.DeleteFree? || p.DeleteNull? || p.DeleteOut?
  }

  /** The next atomic step of thread t. */
  function Step(s: State, t: nat, choice: Choice): State
    requires t < |s.threads| && t < |s.lock.at|
  {
    var p := s.threads[t].prog;
    if Reads(p) then ReadStep(s, t)
    else if Updates(p) then UpdateStep(s, t)
    else if Deletes(p) then DeleteStep(s, t)
    else if p.Drop? then Release(s, t, p.held, p.next)
    else if p.Free? then Continue(Freed(s, p.c), t, p.next)
    else if p.Idle? then Begin(s, t, choice)
    else s
  }

  /** `stm_new` with the first copy, and n readers. */
  function Start(n: nat): State
  {
    State(RwLock.Start(n + 1), seq(n + 1, _ => Thread(Idle, None)), Some(0), [Copy(1, 0)], false)
  }

  // ----- who holds what -----

  function Is(o: Option<nat>, c: nat): nat
  {
    if o == Some(c) then 1 else 0
  }

  /** The references to copy c that are in the variables of a thread. */
  function Held(th: Thread, c: nat): nat
  {
    Is(th.last, c) + InProg(th.prog, c)
  }

  function InProg(p: Prog, c: nat): nat
  {
    match p
    case ReadOut(got) => Is(got, c)
    case Compare(got) => Is(got, c)
    case UpdateLock(d) => Is(Some(d), c)
    case UpdateSwap(d, _) => Is(Some(d), c)
    case UpdateOut(was) => Is(was, c)
    case Drop(d, next) => Is(d, c) + Later(next, c)
    case Free(_, next) => Later(next, c)
    case _ => 0
  }

  function Later(next: Then, c: nat): nat
  {
    if next.Install? then Is(next.got, c) else 0
  }

  /** About to free copy c. */
  function Freeing(th: Thread, c: nat): nat
  {
    match th.prog
    case Free(d, _) => Is(Some(d), c)
    case DeleteFree(d) => Is(Some(d), c)
    case _ => 0
  }

  function AllHeld(ts: seq<Thread>, c: nat): nat
  {
    if ts == [] then 0 else Held(ts[0], c) + AllHeld(ts[1..], c)
  }

  function AllFreeing(ts: seq<Thread>, c: nat): nat
  {
    if ts == [] then 0 else Freeing(ts[0], c) + AllFreeing(ts[1..], c)
  }

  /** The reference of the object itself, given up before `copy` is cleared when it is deleted. */
  function ObjectHolds(s: State, c: nat): nat
  {
    if |s.threads| > 0 && (s.threads[0].prog.DeleteFree? || s.threads[0].prog == DeleteNull) then 0
    else Is(s.current, c)
  }

  /** The count of a copy is the number of references to it, and it is freed, or being freed, once,
      exactly when there are none. */
  ghost predicate CopyOk(s: State, c: nat)
  {
    if c < |s.copies| then
      && s.copies[c].reference == ObjectHolds(s, c) + AllHeld(s.threads, c)
      && s.copies[c].frees + AllFreeing(s.threads, c) == (if s.copies[c].reference == 0 then 1 else 0)
    else
      Is(s.current, c) == AllHeld(s.threads, c) == AllFreeing(s.threads, c) == 0
  }

  /** Where a thread's program and the lock's code must be together. */
  ghost predicate PlaceOk(s: State, t: nat)
    requires t < |s.threads| && t < |s.lock.at|
  {
    var th, p := s.threads[t], s.lock.at[t];
    match th.prog
    case ReadLock => p in {ReadSpin, ReadPassed, ReadRaised, ReadBack, Reading}
    case ReadGot(c) => p == Reading && s.current == Some(c)
    case ReadOut(_) => p == Reading
    case UpdateLock(_) => p in {WriteSpin, WriteSet, Writing}
    case UpdateSwap(_, was) => p == Writing && s.current == was
    case UpdateOut(_) => p == Writing
    case DeleteLock => p in {WriteSpin, WriteSet, Writing}
    case DeleteFree(c) => p == Writing && s.current == Some(c)
    case DeleteNull => p == Writing
    case DeleteOut => p == Writing
    case Drop(_, next) => p == Out && (next.Install? ==> th.last.None?)
    case Free(_, next) => p == Out && (next.Install? ==> th.last.None?)
    case _ => p == Out
  }

  ghost predicate Inv(s: State)
  {
    && |s.threads| == |s.lock.at| > 0 && RwLock.Inv(s.lock) && !s.fault
    && (forall t | 0 <= t < |s.threads| :: PlaceOk(s, t))
    && (forall c: nat :: CopyOk(s, c))
    && RolesOk(s)
  }

  /** Only thread 0 writes. */
  ghost predicate RolesOk(s: State)
  {
    forall t | 0 < t < |s.threads| :: !Writes(s.threads[t].prog)
  }

  predicate Writes(p: Prog)
  {
    Updates(p) || Deletes(p)
  }

  // ----- every step keeps the invariant -----

  lemma {:induction false} SumMoved(ts: seq<Thread>, t: nat, th: Thread, c: nat)
    requires t < |ts|
    ensures AllHeld(ts[t := th], c) == AllHeld(ts, c) - Held(ts[t], c) + Held(th, c)
    ensures AllFreeing(ts[t := th], c) == AllFreeing(ts, c) - Freeing(ts[t], c) + Freeing(th, c)
  {
    if t > 0 {
      SumMoved(ts[1..], t - 1, th, c);
      assert ts[t := th][1..] == ts[1..][t - 1 := th];
    } else {
      assert ts[t := th][1..] == ts[1..];
    }
  }

  lemma {:induction false} SumAtLeast(ts: seq<Thread>, t: nat, c: nat)
    requires t < |ts|
    ensures AllHeld(ts, c) >= Held(ts[t], c) && AllFreeing(ts, c) >= Freeing(ts[t], c)
  {
    if t > 0 { SumAtLeast(ts[1..], t - 1, c); }
  }

  /** A held copy was made, has references, and is not freed. */
  lemma {:induction false} HeldIsLive(s: State, t: nat, c: nat)
    requires Inv(s) && t < |s.threads| && Held(s.threads[t], c) > 0
    ensures c < |s.copies| && s.copies[c].reference >= Held(s.threads[t], c) && s.copies[c].frees == 0
  {
    assert CopyOk(s, c);
    hide AllHeld, AllFreeing, Held, Freeing;
    SumAtLeast(s.threads, t, c);
  }

  /** The lock after a step is the lock, or has taken a turn. */
  lemma {:induction false} StepLock(s: State, t: nat, choice: Choice)
    requires t < |s.threads| == |s.lock.at| && RwLock.Inv(s.lock)
    ensures var z := Step(s, t, choice);
            |z.lock.at| == |s.lock.at| && RwLock.Inv(z.lock) &&
            forall u | 0 <= u < |s.lock.at| && u != t :: z.lock.at[u] == s.lock.at[u]
  {
    TurnKeeps(s.lock, t, Neither);
    TurnKeeps(s.lock, t, ToRead);
    TurnKeeps(s.lock, t, ToWrite);
    TurnFrame(s.lock, t, Neither);
    TurnFrame(s.lock, t, ToRead);
    TurnFrame(s.lock, t, ToWrite);
    hide RwLock.Inv, Turn;
    var p := s.threads[t].prog;
    if Reads(p) {
      assert Step(s, t, choice).lock in {s.lock, Turn(s.lock, t, Neither)};
    } else if Updates(p) {
      assert Step(s, t, choice).lock in {s.lock, Turn(s.lock, t, Neither)};
    } else if Deletes(p) {
      assert Step(s, t, choice).lock in {s.lock, Turn(s.lock, t, Neither)};
    }
  }

  lemma {:induction false} TurnFrame(l: Lock, t: nat, w: Wish)
    requires t < |l.at|
    ensures |Turn(l, t, w).at| == |l.at| && forall u | 0 <= u < |l.at| && u != t :: Turn(l, t, w).at[u] == l.at[u]
  {
  }

  /** What one step of thread t does outside its counts. */
  ghost predicate Proper(s: State, t: nat, z: State)
    requires t < |s.threads| == |s.lock.at|
  {
    && |z.threads| == |s.threads| == |z.lock.at| && z.threads == s.threads[t := z.threads[t]]
    && (z.current == s.current || s.lock.at[t] == Writing)
    && (t > 0 && !Writes(s.threads[t].prog) ==> !Writes(z.threads[t].prog))
    && PlaceOk(z, t)
  }

  lemma {:induction false} ReadProper(s: State, t: nat)
    requires t < |s.threads| == |s.lock.at| && PlaceOk(s, t) && Reads(s.threads[t].prog)
    ensures Proper(s, t, ReadStep(s, t))
  {
  }

  lemma {:induction false} UpdateProper(s: State, t: nat)
    requires t < |s.threads| == |s.lock.at| && PlaceOk(s, t) && Updates(s.threads[t].prog)
    ensures Proper(s, t, UpdateStep(s, t))
  {
  }

  lemma {:induction false} DeleteProper(s: State, t: nat)
    requires t < |s.threads| == |s.lock.at| && PlaceOk(s, t) && Deletes(s.threads[t].prog)
    ensures Proper(s, t, DeleteStep(s, t))
  {
  }

  lemma {:induction false} BeginProper(s: State, t: nat, choice: Choice)
    requires t < |s.threads| == |s.lock.at| && PlaceOk(s, t) && s.threads[t].prog.Idle?
    ensures Proper(s, t, Begin(s, t, choice))
  {
  }

  lemma {:induction false} ReleaseProper(s: State, t: nat)
    requires t < |s.threads| == |s.lock.at| && PlaceOk(s, t)
    ensures var p := s.threads[t].prog;
            (p.Drop? ==> Proper(s, t, Release(s, t, p.held, p.next))) &&
            (p.Free? ==> Proper(s, t, Continue(Freed(s, p.c), t, p.next)))
  {
    if s.threads[t].prog.Drop? { DropProper(s, t); } else if s.threads[t].prog.Free? { FreeProper(s, t); }
  }

  lemma {:induction false} DropProper(s: State, t: nat)
    requires t < |s.threads| == |s.lock.at| && PlaceOk(s, t) && s.threads[t].prog.Drop?
    ensures var p := s.threads[t].prog; Proper(s, t, Release(s, t, p.held, p.next))
  {
  }

  lemma {:induction false} FreeProper(s: State, t: nat)
    requires t < |s.threads| == |s.lock.at| && PlaceOk(s, t) && s.threads[t].prog.Free?
    ensures var p := s.threads[t].prog; Proper(s, t, Continue(Freed(s, p.c), t, p.next))
  {
  }

  lemma {:induction false} StepProper(s: State, t: nat, choice: Choice)
    requires t < |s.threads| == |s.lock.at| && PlaceOk(s, t)
    ensures Proper(s, t, Step(s, t, choice))
  {
    var p := s.threads[t].prog;
    if Reads(p) { ReadProper(s, t); }
    else if Updates(p) { UpdateProper(s, t); }
    else if Deletes(p) { DeleteProper(s, t); }
    else if p.Idle? { BeginProper(s, t, choice); }
    else { ReleaseProper(s, t); }
    assert PlaceOk(s, t);
    hide ReadStep, UpdateStep, DeleteStep, Begin, Release, Continue, Freed;
  }

  /** While thread t changes `copy` it writes, so no other thread depends on it. */
  lemma {:induction false} OtherPlace(s: State, z: State, t: nat, u: nat)
    requires Inv(s) && t < |s.threads| && u < |s.threads| && t != u
    requires |z.threads| == |s.threads| == |z.lock.at|
    requires z.threads[u] == s.threads[u] && z.lock.at[u] == s.lock.at[u]
    requires z.current == s.current || s.lock.at[t] == Writing
    ensures PlaceOk(z, u)
  {
    assert PlaceOk(s, u);
    if s.lock.at[t] == Writing { OneWriter(s.lock, t, u); }
    hide RwLock.Inv, CopyOk;
  }

  // ----- counts -----

  /** The object's copy is there, with a reference of its own, unless it is being deleted. */
  lemma {:induction false} ObjectIsLive(s: State, c: nat)
    requires Inv(s) && ObjectHolds(s, c) > 0
    ensures c < |s.copies| && s.copies[c].reference > 0 && s.copies[c].frees == 0
  {
    assert CopyOk(s, c);
    hide AllHeld, AllFreeing;
  }

  /** The thread that is to free a copy is the only one, and nobody freed it. */
  lemma {:induction false} FreeingIsLast(s: State, t: nat, c: nat)
    requires Inv(s) && t < |s.threads| && Freeing(s.threads[t], c) > 0
    ensures c < |s.copies| && s.copies[c].reference == 0 && s.copies[c].frees == 0 && AllFreeing(s.threads, c) == 1
  {
    assert CopyOk(s, c);
    SumAtLeast(s.threads, t, c);
    hide AllHeld, AllFreeing;
  }

  lemma {:induction false} InvAt(s: State, t: nat, c: nat)
    requires Inv(s) && t < |s.threads|
    ensures |s.threads| == |s.lock.at| && PlaceOk(s, t) && CopyOk(s, c) && !s.fault
    ensures t > 0 ==> !Writes(s.threads[t].prog)
  {
  }

  lemma {:induction false} ReadCounts(s: State, t: nat, c: nat)
    requires Inv(s) && t < |s.threads| && Reads(s.threads[t].prog)
    ensures CopyOk(ReadStep(s, t), c) && !ReadStep(s, t).fault
  {
    hide AllHeld, AllFreeing, Turn, RwLock.Inv, Inv;
    InvAt(s, t, c);
    var z, th := ReadStep(s, t), s.threads[t];
    ReadProper(s, t);
    SumMoved(s.threads, t, z.threads[t], c);
    if th.prog.ReadGot? {
      NotDeleting(s, t);
      ObjectIsLive(s, th.prog.ret);
    }
    if th.last.Some? { HeldIsLive(s, t, th.last.value); }
    assert z.threads == s.threads[t := z.threads[t]];
  }

  /** With a reader inside, the object is not being deleted. */
  lemma {:induction false} NotDeleting(s: State, t: nat)
    requires Inv(s) && t < |s.threads| && s.lock.at[t] == Reading
    ensures !s.threads[0].prog.DeleteFree? && !s.threads[0].prog.DeleteNull?
  {
    assert PlaceOk(s, 0) && PlaceOk(s, t);
  }

  lemma {:induction false} UpdateCounts(s: State, t: nat, c: nat)
    requires Inv(s) && t < |s.threads| && Updates(s.threads[t].prog)
    ensures CopyOk(UpdateStep(s, t), c) && !UpdateStep(s, t).fault
  {
    hide AllHeld, AllFreeing, Turn, RwLock.Inv, Inv;
    InvAt(s, t, c);
    var z := UpdateStep(s, t);
    UpdateProper(s, t);
    SumMoved(s.threads, t, z.threads[t], c);
    SumAtLeast(s.threads, t, c);
    assert z.threads == s.threads[t := z.threads[t]];
    assert t == 0;
  }

  lemma {:induction false} DeleteCounts(s: State, t: nat, c: nat)
    requires Inv(s) && t < |s.threads| && Deletes(s.threads[t].prog)
    ensures CopyOk(DeleteStep(s, t), c) && !DeleteStep(s, t).fault
  {
    hide AllHeld, AllFreeing, Turn, RwLock.Inv, Inv;
    InvAt(s, t, c);
    var z, p := DeleteStep(s, t), s.threads[t].prog;
    DeleteProper(s, t);
    SumMoved(s.threads, t, z.threads[t], c);
    assert t == 0;
    if p.DeleteLock? && s.current.Some? { ObjectIsLive(s, s.current.value); }
    if p.DeleteFree? { FreeingIsLast(s, t, p.c); }
    assert z.threads == s.threads[t := z.threads[t]];
  }

  /** What a released reference moves from and to. */
  lemma {:induction false} ReleaseMoves(s: State, t: nat, c: nat)
    requires t < |s.threads| == |s.lock.at| && PlaceOk(s, t) && s.threads[t].prog.Drop?
    ensures var p := s.threads[t].prog; var z := Release(s, t, p.held, p.next);
            && |z.threads| == |s.threads| && z.current == s.current
            && z.threads[0].prog.DeleteFree? == s.threads[0].prog.DeleteFree?
            && z.threads[0].prog.DeleteNull? == s.threads[0].prog.DeleteNull?
            && Held(s.threads[t], c) == Is(p.held, c) + Held(z.threads[t], c)
            && Freeing(s.threads[t], c) == 0
            && Freeing(z.threads[t], c)
               == (if c < |s.copies| && p.held == Some(c) && s.copies[c].reference == 1 then 1 else 0)
  {
    hide Turn, PlaceOk, Held, Freeing, Release;
    DropHolds(s, t, c);
    DropFrame(s, t);
  }

  lemma {:induction false} DropFrame(s: State, t: nat)
    requires t < |s.threads| && s.threads[t].prog.Drop?
    ensures var p := s.threads[t].prog; var z := Release(s, t, p.held, p.next);
            && |z.threads| == |s.threads| && z.current == s.current
            && z.threads[0].prog.DeleteFree? == s.threads[0].prog.DeleteFree?
            && z.threads[0].prog.DeleteNull? == s.threads[0].prog.DeleteNull?
  {
  }

  lemma {:induction false} DropHolds(s: State, t: nat, c: nat)
    requires t < |s.threads| == |s.lock.at| && PlaceOk(s, t) && s.threads[t].prog.Drop?
    ensures var p := s.threads[t].prog; var z := Release(s, t, p.held, p.next);
            && |z.threads| == |s.threads|
            && Held(s.threads[t], c) == Is(p.held, c) + Held(z.threads[t], c)
            && Freeing(s.threads[t], c) == 0
            && Freeing(z.threads[t], c)
               == (if c < |s.copies| && p.held == Some(c) && s.copies[c].reference == 1 then 1 else 0)
  {
    hide Turn;
  }

  lemma {:induction false} ReleaseCopies(s: State, t: nat, held: Option<nat>, next: Then)
    requires t < |s.threads|
    ensures var z := Release(s, t, held, next);
            && |z.copies| == |s.copies|
            && (forall c | 0 <= c < |s.copies| ::
                  z.copies[c] == (if held == Some(c) then s.copies[c].(reference := s.copies[c].reference - 1)
                    else s.copies[c]))
            && z.fault == (s.fault || (held.Some? && (held.value >= |s.copies| || s.copies[held.value].frees > 0)))
  {
  }

  lemma {:induction false} ReleaseCounts(s: State, t: nat, c: nat)
    requires Inv(s) && t < |s.threads| && s.threads[t].prog.Drop?
    ensures var p := s.threads[t].prog; var z := Release(s, t, p.held, p.next); CopyOk(z, c) && !z.fault
  {
    hide AllHeld, AllFreeing, Turn, RwLock.Inv, Inv;
    InvAt(s, t, c);
    var p := s.threads[t].prog;
    var z := Release(s, t, p.held, p.next);
    ReleaseProper(s, t);
    SumMoved(s.threads, t, z.threads[t], c);
    if p.held.Some? { HeldIsLive(s, t, p.held.value); }
    ReleaseMoves(s, t, c);
    ReleaseCopies(s, t, p.held, p.next);
    assert z.threads == s.threads[t := z.threads[t]];
  }

  lemma {:induction false} FreeCounts(s: State, t: nat, c: nat)
    requires Inv(s) && t < |s.threads| && s.threads[t].prog.Free?
    ensures var p := s.threads[t].prog; var z := Continue(Freed(s, p.c), t, p.next); CopyOk(z, c) && !z.fault
  {
    hide AllHeld, AllFreeing, Turn, RwLock.Inv, Inv;
    InvAt(s, t, c);
    var p := s.threads[t].prog;
    var z := Continue(Freed(s, p.c), t, p.next);
    ReleaseProper(s, t);
    SumMoved(s.threads, t, z.threads[t], c);
    FreeingIsLast(s, t, p.c);
    assert z.threads == s.threads[t := z.threads[t]];
  }

  lemma {:induction false} BeginCounts(s: State, t: nat, choice: Choice, c: nat)
    requires Inv(s) && t < |s.threads| && s.threads[t].prog.Idle?
    ensures CopyOk(Begin(s, t, choice), c) && !Begin(s, t, choice).fault
  {
    hide AllHeld, AllFreeing, Turn, RwLock.Inv, Inv;
    InvAt(s, t, c);
    var z := Begin(s, t, choice);
    BeginProper(s, t, choice);
    SumMoved(s.threads, t, z.threads[t], c);
    assert z.threads == s.threads[t := z.threads[t]];
  }

  /** Every step of every thread keeps the counts exact and touches no freed copy. */
  lemma {:induction false} StepKeeps(s: State, t: nat, choice: Choice)
    requires Inv(s) && t < |s.threads|
    ensures Inv(Step(s, t, choice))
  {
    var z, p := Step(s, t, choice), s.threads[t].prog;
    assert PlaceOk(s, t);
    StepProper(s, t, choice);
    StepLock(s, t, choice);
    forall u | 0 <= u < |z.threads| ensures PlaceOk(z, u) {
      if u != t { OtherPlace(s, z, t, u); }
    }
    forall c: nat ensures CopyOk(z, c) && !z.fault {
      StepCounts(s, t, choice, c);
    }
    StepCounts(s, t, choice, 0);
    hide Step, CopyOk, PlaceOk, RwLock.Inv;
  }

  lemma {:induction false} StepCounts(s: State, t: nat, choice: Choice, c: nat)
    requires Inv(s) && t < |s.threads|
    ensures CopyOk(Step(s, t, choice), c) && !Step(s, t, choice).fault
  {
    var p := s.threads[t].prog;
    if Reads(p) { ReadCounts(s, t, c); }
    else if Updates(p) { UpdateCounts(s, t, c); }
    else if Deletes(p) { DeleteCounts(s, t, c); }
    else if p.Drop? { ReleaseCounts(s, t, c); }
    else if p.Free? { FreeCounts(s, t, c); }
    else if p.Idle? { BeginCounts(s, t, choice, c); }
    assert CopyOk(s, c) && !s.fault;
    hide ReadStep, UpdateStep, DeleteStep, Begin, Release, Continue, Freed, Inv, CopyOk;
  }

  // ----- runs -----

  /** Who takes the steps of a run, and what an idle thread then begins. */
  function After(n: nat, turns: seq<(nat, Choice)>): State
    decreases |turns|
  {
    if turns == [] then Start(n)
    else
      var s, (t, choice) := After(n, turns[..|turns| - 1]), turns[|turns| - 1];
      if t < |s.threads| && t < |s.lock.at| then Step(s, t, choice) else s
  }

  lemma {:induction false} NothingHeld(n: nat, c: nat)
    ensures AllHeld(Start(n).threads, c) == 0 && AllFreeing(Start(n).threads, c) == 0
    decreases n
  {
    var ts := Start(n).threads;
    if n > 0 {
      NothingHeld(n - 1, c);
      assert ts[1..] == Start(n - 1).threads;
    } else {
      assert ts[1..] == [];
    }
  }

  lemma {:induction false} StartOk(n: nat)
    ensures Inv(Start(n))
  {
    NobodyOut(n + 1);
    forall c: nat ensures CopyOk(Start(n), c) { NothingHeld(n, c); }
    hide CopyOk, RwLock.Inv;
  }

  lemma {:induction false} Reachable(n: nat, turns: seq<(nat, Choice)>)
    ensures Inv(After(n, turns))
    decreases |turns|
  {
    if turns == [] {
      StartOk(n);
    } else {
      var k := |turns| - 1;
      Reachable(n, turns[..k]);
      var s := After(n, turns[..k]);
      if turns[k].0 < |s.threads| && turns[k].0 < |s.lock.at| { StepKeeps(s, turns[k].0, turns[k].1); }
      hide Inv, Step;
    }
  }

  /** At every moment of every run the count of a copy is the object's reference and those of the
      threads; a copy somebody holds is not freed; none is freed twice or touched when freed. */
  lemma {:induction false} CopiesSafe(n: nat, turns: seq<(nat, Choice)>, c: nat)
    ensures var s := After(n, turns);
            && !s.fault
            && (c < |s.copies| ==>
                  && s.copies[c].reference == ObjectHolds(s, c) + AllHeld(s.threads, c)
                  && s.copies[c].frees <= 1
                  && (s.copies[c].frees == 1 ==> ObjectHolds(s, c) == 0))
            && (forall t | 0 <= t < |s.threads| ::
                  Held(s.threads[t], c) > 0 ==> c < |s.copies| && s.copies[c].frees == 0)
  {
    Reachable(n, turns);
    var s := After(n, turns);
    assert CopyOk(s, c);
    forall t | 0 <= t < |s.threads| && Held(s.threads[t], c) > 0
      ensures c < |s.copies| && s.copies[c].frees == 0
    {
      HeldIsLive(s, t, c);
    }
  }

  lemma {:induction false} NoneLeft(ts: seq<Thread>, c: nat)
    requires forall t | 0 <= t < |ts| :: ts[t].prog in {Idle, Gone} && ts[t].last.None?
    ensures AllHeld(ts, c) == 0 && AllFreeing(ts, c) == 0
    decreases |ts|
  {
    if ts != [] { NoneLeft(ts[1..], c); }
  }

  /** No copy is lost: once the object is deleted and the readers have let go, each copy ever made is
      freed exactly once. */
  lemma {:induction false} EveryCopyFreed(n: nat, turns: seq<(nat, Choice)>, c: nat)
    requires var s := After(n, turns);
             s.current.None?
             && forall t | 0 <= t < |s.threads| :: s.threads[t].prog in {Idle, Gone} && s.threads[t].last.None?
    ensures var s := After(n, turns); c < |s.copies| ==> s.copies[c].frees == 1
  {
    Reachable(n, turns);
    var s := After(n, turns);
    assert CopyOk(s, c);
    NoneLeft(s.threads, c);
  }
}
