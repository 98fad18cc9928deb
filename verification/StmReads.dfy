/** What the readers of lua-stm.c read: the copy of the last update, and whether it is news. */
module StmReads {
  import opened Basics
  import RwLock
  import opened Stm

  /** The step of thread `t` is the one in which an update puts its copy in place. */
  predicate Swapping(s: State, t: nat) { t < |s.threads| && s.threads[t].prog.UpdateSwap? }

  /** How many updates have put their copy in place. */
  function Swaps(n: nat, turns: seq<(nat, Choice)>): nat
    decreases |turns|
  {
    if turns == [] then 0
    else
      var k := |turns| - 1;
      Swaps(n, turns[..k]) + (if Swapping(After(n, turns[..k]), turns[k].0) then 1 else 0)
  }

  /** The writer has cleared the object. */
  predicate Deleted(s: State)
  {
    |s.threads| > 0 && (s.threads[0].prog.DeleteOut? || s.threads[0].prog.Gone?)
  }

  /** The read that a thread began last: how many updates had swapped, which copy the thread had read
      before, and whether it has come to the callback since. */
  datatype Begun = Begun(swaps: nat, seen: Option<nat>, used: bool)

  predicate Begins(s: State, t: nat, who: nat, choice: Choice)
  {
    who == t && 0 < t < |s.threads| && s.threads[t].prog.Idle? && choice == Read
  }

  function LastRead(n: nat, turns: seq<(nat, Choice)>, t: nat): Option<Begun>
    decreases |turns|
  {
    if turns == [] then None
    else
      var k := |turns| - 1;
      var s, z, before := After(n, turns[..k]), After(n, turns), LastRead(n, turns[..k], t);
      if Begins(s, t, turns[k].0, turns[k].1) then Some(Begun(Swaps(n, turns[..k]), s.threads[t].last, false))
      else if before.Some? && t < |z.threads| && z.threads[t].prog.Use? then Some(before.value.(used := true))
      else before
  }

  // ----- invariants -----

  /** The copy in place is that of the last update, each update making the next copy. */
  ghost predicate WriterOk(s: State, swaps: nat)
  {
    && |s.threads| > 0
    && s.current == (if Deleted(s) then None else Some(swaps))
    && (match s.threads[0].prog
        case Idle => |s.copies| == swaps + 1
        case UpdateLock(c) => c == swaps + 1 && |s.copies| == swaps + 2
        case UpdateSwap(c, _) => c == swaps + 1 && |s.copies| == swaps + 2
        case UpdateOut(_) => |s.copies| == swaps + 1
        case Drop(_, next) => next.Nothing? && |s.copies| == swaps + 1
        case Free(_, next) => next.Nothing? && |s.copies| == swaps + 1
        case Gone => true
        case p => Deletes(p))
  }

  /** A copy read since the read began. */
  predicate Fresh(got: Option<nat>, begun: Begun, swaps: nat, deleted: bool)
  {
    if got.Some? then begun.swaps <= got.value <= swaps else deleted
  }

  ghost predicate ReaderOk(th: Thread, read: Option<Begun>, swaps: nat, deleted: bool)
  {
    match th.prog
    case Idle =>
      if read.None? then th.last.None?
      else Fresh(th.last, read.value, swaps, deleted)
           && (read.value.used <==> th.last.Some? && th.last != read.value.seen)
    case Gone => true
    case Drop(_, End) => true
    case Free(_, End) => true
    case UpdateLock(_) => false
    case UpdateSwap(_, _) => false
    case UpdateOut(_) => false
    case DeleteLock => false
    case DeleteFree(_) => false
    case DeleteNull => false
    case DeleteOut => false
    case p => read.Some? && InRead(p, th.last, read.value, swaps, deleted)
  }

  ghost predicate InRead(p: Prog, last: Option<nat>, begun: Begun, swaps: nat, deleted: bool)
  {
    && begun.swaps <= swaps
    && match p
       case ReadLock => last == begun.seen && !begun.used
       case ReadGot(c) => last == begun.seen && !begun.used && !deleted && c == swaps
       case ReadOut(got) => last == begun.seen && !begun.used && Fresh(got, begun, swaps, deleted)
       case Compare(got) => last == begun.seen && !begun.used && Fresh(got, begun, swaps, deleted)
       case Use => last.Some? && last != begun.seen && begun.used && Fresh(last, begun, swaps, deleted)
       case Drop(_, next) => Letting(next, last, begun, swaps, deleted)
       case Free(_, next) => Letting(next, last, begun, swaps, deleted)
       case _ => false
  }

  /** A copy is let go: the new one, which is the old one, or the old one for the new one. */
  ghost predicate Letting(next: Then, last: Option<nat>, begun: Begun, swaps: nat, deleted: bool)
  {
    && !begun.used
    && match next
       case Nothing => last == begun.seen && Fresh(last, begun, swaps, deleted)
       case Install(got) => got != begun.seen && Fresh(got, begun, swaps, deleted)
       case End => false
  }

  // ----- every step keeps them -----

  /** With a writer inside the lock no reader is. */
  lemma {:induction false} Apart(s: State, t: nat)
    requires Inv(s) && t < |s.threads| && s.lock.at[0] == RwLock.Writing
    ensures s.lock.at[t] != RwLock.Reading
  {
  }

  lemma {:induction false} StepWriterOk(s: State, t: nat, choice: Choice, swaps: nat)
    requires Inv(s) && t < |s.threads| && WriterOk(s, swaps)
    ensures WriterOk(Step(s, t, choice), swaps + if Swapping(s, t) then 1 else 0)
  {
    RolesAt(s, t);
    if t > 0 { OtherStep(s, t, choice); } else { WriterStep(s, choice, swaps); }
  }

  lemma {:induction false} RolesAt(s: State, t: nat)
    requires Inv(s) && t < |s.threads|
    ensures |s.threads| == |s.lock.at| > 0 && PlaceOk(s, t) && PlaceOk(s, 0)
    ensures t > 0 ==> !Writes(s.threads[t].prog)
  {
  }

  /** A step of a reader leaves the object and the writer alone. */
  lemma {:induction false} OtherStep(s: State, t: nat, choice: Choice)
    requires 0 < t < |s.threads| == |s.lock.at| && !Writes(s.threads[t].prog) && PlaceOk(s, t)
    ensures var z := Step(s, t, choice);
            && z.current == s.current && |z.copies| == |s.copies| && |z.threads| == |s.threads|
            && z.threads[0] == s.threads[0] && Deleted(z) == Deleted(s) && !Swapping(s, t)
  {
    hide PlaceOk, RwLock.Turn, ReadStep, UpdateStep, DeleteStep, Begin, Release, Continue, Freed;
    StepProper(s, t, choice);
    var p := s.threads[t].prog;
    if Reads(p) { ReadFrame(s, t); }
    else if p.Drop? { ReleaseFrame(s, t, p.held, p.next); }
    else if p.Free? { FreeFrame(s, t, p.c, p.next); }
    else if p.Idle? { BeginFrame(s, t, choice); }
  }

  lemma {:induction false} ReadFrame(s: State, t: nat)
    requires t < |s.threads| == |s.lock.at| && Reads(s.threads[t].prog)
    ensures ReadStep(s, t).current == s.current && |ReadStep(s, t).copies| == |s.copies|
  {
    hide RwLock.Turn;
  }

  lemma {:induction false} ReleaseFrame(s: State, t: nat, c: Option<nat>, next: Then)
    requires t < |s.threads|
    ensures Release(s, t, c, next).current == s.current && |Release(s, t, c, next).copies| == |s.copies|
  {
  }

  lemma {:induction false} FreeFrame(s: State, t: nat, c: nat, next: Then)
    requires t < |s.threads|
    ensures var z := Continue(Freed(s, c), t, next); z.current == s.current && |z.copies| == |s.copies|
  {
  }

  lemma {:induction false} BeginFrame(s: State, t: nat, choice: Choice)
    requires 0 < t < |s.threads| == |s.lock.at|
    ensures Begin(s, t, choice).current == s.current && |Begin(s, t, choice).copies| == |s.copies|
  {
    hide RwLock.Turn;
  }

  lemma {:induction false} WriterStep(s: State, choice: Choice, swaps: nat)
    requires 0 < |s.threads| == |s.lock.at| && WriterOk(s, swaps) && PlaceOk(s, 0)
    ensures WriterOk(Step(s, 0, choice), swaps + if Swapping(s, 0) then 1 else 0)
  {
    hide RwLock.Turn, ReadStep, UpdateStep, DeleteStep, Begin, Release, Continue, Freed;
    var p := s.threads[0].prog;
    if Updates(p) { UpdateWriter(s, swaps); }
    else if Deletes(p) { DeleteWriter(s, swaps); }
    else if p.Drop? { DropWriter(s, swaps); }
    else if p.Free? { FreeWriter(s, swaps); }
    else if p.Idle? { BeginWriter(s, choice, swaps); }
  }

  lemma {:induction false} UpdateWriter(s: State, swaps: nat)
    requires 0 < |s.threads| == |s.lock.at| && WriterOk(s, swaps) && Updates(s.threads[0].prog)
    ensures WriterOk(UpdateStep(s, 0), swaps + if Swapping(s, 0) then 1 else 0)
  {
    hide RwLock.Turn;
  }

  lemma {:induction false} DeleteWriter(s: State, swaps: nat)
    requires 0 < |s.threads| == |s.lock.at| && WriterOk(s, swaps) && Deletes(s.threads[0].prog)
    ensures WriterOk(DeleteStep(s, 0), swaps)
  {
    hide RwLock.Turn;
  }

  lemma {:induction false} DropWriter(s: State, swaps: nat)
    requires 0 < |s.threads| == |s.lock.at| && WriterOk(s, swaps) && s.threads[0].prog.Drop?
    ensures var p := s.threads[0].prog; WriterOk(Release(s, 0, p.held, p.next), swaps)
  {
  }

  lemma {:induction false} FreeWriter(s: State, swaps: nat)
    requires 0 < |s.threads| == |s.lock.at| && WriterOk(s, swaps) && s.threads[0].prog.Free?
    ensures var p := s.threads[0].prog; WriterOk(Continue(Freed(s, p.c), 0, p.next), swaps)
  {
  }

  lemma {:induction false} BeginWriter(s: State, choice: Choice, swaps: nat)
    requires 0 < |s.threads| == |s.lock.at| && WriterOk(s, swaps) && s.threads[0].prog.Idle?
    ensures WriterOk(Begin(s, 0, choice), swaps)
  {
    hide RwLock.Turn;
  }

  lemma {:induction false} StepReaderOk(s: State, who: nat, choice: Choice, t: nat, swaps: nat, read: Option<Begun>)
    requires Inv(s) && who < |s.threads| && 0 < t < |s.threads| && WriterOk(s, swaps)
    requires ReaderOk(s.threads[t], read, swaps, Deleted(s))
    ensures var z := Step(s, who, choice);
      && t < |z.threads|
      && ReaderOk(z.threads[t],
                  if Begins(s, t, who, choice) then Some(Begun(swaps, s.threads[t].last, false))
                  else if read.Some? && z.threads[t].prog.Use? then Some(read.value.(used := true))
                  else read,
                  swaps + if Swapping(s, who) then 1 else 0, Deleted(z))
  {
    RolesAt(s, t);
    RolesAt(s, who);
    if who != t {
      OthersStep(s, who, choice, t);
      if who == 0 { WriterMoves(s, choice, t, swaps, read); }
    } else {
      OtherStep(s, t, choice);
      ReaderMoves(s, choice, t, swaps, read);
    }
  }

  /** A step of one thread leaves the others where they are. */
  lemma {:induction false} OthersStep(s: State, who: nat, choice: Choice, t: nat)
    requires who < |s.threads| == |s.lock.at| && t < |s.threads| && t != who && PlaceOk(s, who)
    ensures |Step(s, who, choice).threads| == |s.threads| && Step(s, who, choice).threads[t] == s.threads[t]
    ensures 0 < who && !Writes(s.threads[who].prog) ==>
              !Swapping(s, who) && Deleted(Step(s, who, choice)) == Deleted(s)
  {
    hide PlaceOk, Step;
    StepProper(s, who, choice);
  }

  /** What a reader has is as fresh after a step of the writer. */
  lemma {:induction false} WriterMoves(s: State, choice: Choice, t: nat, swaps: nat, read: Option<Begun>)
    requires Inv(s) && 0 < t < |s.threads| && WriterOk(s, swaps) && ReaderOk(s.threads[t], read, swaps, Deleted(s))
    ensures ReaderOk(s.threads[t], read, swaps + if Swapping(s, 0) then 1 else 0, Deleted(Step(s, 0, choice)))
  {
    RolesAt(s, t);
    var p := s.threads[0].prog;
    if p.UpdateSwap? || p.DeleteNull? { Apart(s, t); }
    DeletedStays(s, choice);
    hide Step, Inv, WriterOk;
  }

  lemma {:induction false} DeletedStays(s: State, choice: Choice)
    requires 0 < |s.threads| == |s.lock.at|
    ensures Deleted(s) ==> Deleted(Step(s, 0, choice))
    ensures Deleted(Step(s, 0, choice)) && !Deleted(s) ==>
              s.threads[0].prog.DeleteNull? || s.threads[0].prog.Drop? || s.threads[0].prog.Free?
  {
    hide RwLock.Turn;
  }

  /** A step of the reader itself. */
  lemma {:induction false} ReaderMoves(s: State, choice: Choice, t: nat, swaps: nat, read: Option<Begun>)
    requires 0 < t < |s.threads| == |s.lock.at| && PlaceOk(s, t) && !Writes(s.threads[t].prog)
    requires s.current == (if Deleted(s) then None else Some(swaps))
    requires ReaderOk(s.threads[t], read, swaps, Deleted(s))
    ensures var z := Step(s, t, choice);
      && t < |z.threads|
      && ReaderOk(z.threads[t],
                  if Begins(s, t, t, choice) then Some(Begun(swaps, s.threads[t].last, false))
                  else if read.Some? && z.threads[t].prog.Use? then Some(read.value.(used := true))
                  else read,
                  swaps, Deleted(s))
  {
    hide RwLock.Turn, ReadStep, UpdateStep, DeleteStep, Begin, Release, Continue, Freed, ReaderOk, PlaceOk;
    var th := s.threads[t];
    if Reads(th.prog) { ReadMoves(s, t, swaps, read); }
    else if th.prog.Drop? { DropMoves(s, t, swaps, read); }
    else if th.prog.Free? { FreeMoves(s, t, swaps, read); }
    else if th.prog.Idle? { BeginMoves(s, choice, t, swaps, read); }
    else { GoneStays(s, t, swaps, read); }
  }

  lemma {:induction false} GoneStays(s: State, t: nat, swaps: nat, read: Option<Begun>)
    requires 0 < t < |s.threads| && !Writes(s.threads[t].prog) && ReaderOk(s.threads[t], read, swaps, Deleted(s))
    ensures Updates(s.threads[t].prog) || Deletes(s.threads[t].prog) ==> false
    ensures read.Some? && s.threads[t].prog.Use? ==> read.value.used
  {
  }

  /** What is recorded of the read once thread `th` has made its step. */
  function Recorded(read: Option<Begun>, th: Thread): Option<Begun>
  {
    if read.Some? && th.prog.Use? then Some(read.value.(used := true)) else read
  }

  lemma {:induction false} ReadMoves(s: State, t: nat, swaps: nat, read: Option<Begun>)
    requires 0 < t < |s.threads| == |s.lock.at| && PlaceOk(s, t) && Reads(s.threads[t].prog)
    requires s.current == (if Deleted(s) then None else Some(swaps))
    requires ReaderOk(s.threads[t], read, swaps, Deleted(s))
    ensures var z := ReadStep(s, t);
      t < |z.threads| && ReaderOk(z.threads[t], Recorded(read, z.threads[t]), swaps, Deleted(s))
  {
    hide RwLock.Turn;
  }

  lemma {:induction false} DropMoves(s: State, t: nat, swaps: nat, read: Option<Begun>)
    requires 0 < t < |s.threads| == |s.lock.at| && s.threads[t].prog.Drop?
    requires ReaderOk(s.threads[t], read, swaps, Deleted(s))
    ensures var p := s.threads[t].prog;
      var z := Release(s, t, p.held, p.next);
      t < |z.threads| && ReaderOk(z.threads[t], Recorded(read, z.threads[t]), swaps, Deleted(s))
  {
  }

  lemma {:induction false} FreeMoves(s: State, t: nat, swaps: nat, read: Option<Begun>)
    requires 0 < t < |s.threads| == |s.lock.at| && s.threads[t].prog.Free?
    requires ReaderOk(s.threads[t], read, swaps, Deleted(s))
    ensures var p := s.threads[t].prog;
      var z := Continue(Freed(s, p.c), t, p.next);
      t < |z.threads| && ReaderOk(z.threads[t], Recorded(read, z.threads[t]), swaps, Deleted(s))
  {
  }

  lemma {:induction false} BeginMoves(s: State, choice: Choice, t: nat, swaps: nat, read: Option<Begun>)
    requires 0 < t < |s.threads| == |s.lock.at| && s.threads[t].prog.Idle?
    requires ReaderOk(s.threads[t], read, swaps, Deleted(s))
    ensures var z := Begin(s, t, choice);
      && t < |z.threads|
      && ReaderOk(z.threads[t],
                  if choice == Read then Some(Begun(swaps, s.threads[t].last, false)) else Recorded(read, z.threads[t]),
                  swaps, Deleted(s))
  {
    hide RwLock.Turn;
  }

  // ----- runs -----

  lemma {:induction false} RunOk(n: nat, turns: seq<(nat, Choice)>, t: nat)
    requires 0 < t <= n
    ensures var s := After(n, turns);
            && Inv(s) && |s.threads| == n + 1 && WriterOk(s, Swaps(n, turns))
            && ReaderOk(s.threads[t], LastRead(n, turns, t), Swaps(n, turns), Deleted(s))
    decreases |turns|
  {
    hide Inv, Step, WriterOk, ReaderOk;
    Reachable(n, turns);
    if turns == [] {
      AtStart(n, t);
    } else {
      var k := |turns| - 1;
      RunOk(n, turns[..k], t);
      var s := After(n, turns[..k]);
      var (who, choice) := turns[k];
      SameSize(s);
      if who < |s.threads| {
        StepWriterOk(s, who, choice, Swaps(n, turns[..k]));
        StepReaderOk(s, who, choice, t, Swaps(n, turns[..k]), LastRead(n, turns[..k], t));
        StepSize(s, who, choice);
      } else {
        UseAgain(s.threads[t], LastRead(n, turns[..k], t), Swaps(n, turns[..k]), Deleted(s));
      }
    }
  }

  lemma {:induction false} AtStart(n: nat, t: nat)
    requires 0 < t <= n
    ensures WriterOk(Start(n), 0) && ReaderOk(Start(n).threads[t], None, 0, Deleted(Start(n)))
  {
  }

  lemma {:induction false} SameSize(s: State)
    requires Inv(s)
    ensures |s.threads| == |s.lock.at|
  {
  }

  lemma {:induction false} StepSize(s: State, t: nat, choice: Choice)
    requires t < |s.threads| == |s.lock.at|
    ensures |Step(s, t, choice).threads| == |s.threads|
  {
    hide RwLock.Turn;
  }

  lemma {:induction false} UseAgain(th: Thread, read: Option<Begun>, swaps: nat, deleted: bool)
    requires ReaderOk(th, read, swaps, deleted)
    ensures read.Some? && th.prog.Use? ==> read.value.used
  {
  }

  /** At every moment of every run the copy in place is the one that the last update made, the updates
      making copies 1, 2 and so on; there is none once the object is deleted. */
  lemma {:induction false} CurrentIsLast(n: nat, turns: seq<(nat, Choice)>)
    requires n > 0
    ensures var s := After(n, turns); s.current == if Deleted(s) then None else Some(Swaps(n, turns))
  {
    RunOk(n, turns, 1);
  }

  /** When a reader is done with a read, its last copy is one that was in place at some moment since the
      read began: no older than the last update that had swapped then. There is none only if the object
      is deleted. The callback was given it, and `lread` answers true, exactly if it is not the copy
      that the reader had read before. */
  lemma {:induction false} ReadIsFresh(n: nat, turns: seq<(nat, Choice)>, t: nat)
    requires 0 < t <= n
    ensures var s, read := After(n, turns), LastRead(n, turns, t);
      && t < |s.threads|
      && (s.threads[t].prog.Idle? && read.Some? ==>
            var last := s.threads[t].last;
            && (last.Some? ==> read.value.swaps <= last.value <= Swaps(n, turns))
            && (last.None? ==> Deleted(s))
            && (read.value.used <==> last.Some? && last != read.value.seen))
  {
    RunOk(n, turns, t);
  }

  /** Without an update in between, and before the deletion, it is the copy of the last update. */
  lemma {:induction false} ReadIsLast(n: nat, turns: seq<(nat, Choice)>, t: nat)
    requires 0 < t <= n
    requires var s, read := After(n, turns), LastRead(n, turns, t);
             && t < |s.threads| && s.threads[t].prog.Idle? && read.Some? && !Deleted(s)
             && read.value.swaps == Swaps(n, turns)
    ensures After(n, turns).threads[t].last == Some(Swaps(n, turns))
  {
    hide After, LastRead, Swaps, Deleted;
    ReadIsFresh(n, turns, t);
  }
}
