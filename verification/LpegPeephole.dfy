/** The peephole pass of lpcode.c and why it keeps every result.

    The pass rewrites code in place. `starts` is the set of slots at which instructions begin;
    `rank` decreases along every chain of jumps, so `finaltarget` terminates. */
module LpegPeephole {
  import opened LpegTree
  import opened LpegMachine

  /** Opcode at slot `k`; outside instructions the value does not matter. */
  function OpAt(code: Code, k: nat): Opcode
  {
    if k < |code| && code[k].Inst? then code[k].code else IAny
  }

  predicate NextOk(code: Code, starts: set<nat>, k: nat)
    requires k < |code| && code[k].Inst?
  {
    var next := k + SizeI(code[k].code);
    next in starts || (next == |code| && code[k].code == IEnd)
  }

  predicate LabelOk(code: Code, starts: set<nat>, k: nat)
    requires k < |code| && code[k].Inst?
  {
    HasLabel(code[k].code) ==>
      k + 1 < |code| && code[k + 1].Offset? && Target(code, k) >= 0 && Target(code, k) as nat in starts
  }

  predicate Alone(code: Code, starts: set<nat>, k: nat)
    requires k < |code| && code[k].Inst?
  {
    forall m: nat | k < m < k + SizeI(code[k].code) :: m !in starts
  }

  predicate InstOk(code: Code, starts: set<nat>, k: nat)
  {
    && k < |code| && code[k].Inst? && k + SizeI(code[k].code) <= |code|
    && NextOk(code, starts, k) && LabelOk(code, starts, k) && Alone(code, starts, k)
  }

  /** Instructions tile the code, end with `IEnd`, and label only instructions. */
  ghost predicate Laid(code: Code, starts: set<nat>)
  {
    0 in starts && forall k {:trigger InstOk(code, starts, k)} | k in starts :: InstOk(code, starts, k)
  }

  ghost predicate Ranked(code: Code, starts: set<nat>, rank: nat -> nat)
    requires Laid(code, starts)
  {
    forall k {:trigger InstOk(code, starts, k)} | k in starts && InstOk(code, starts, k) && OpAt(code, k) == IJmp ::
      rank(Target(code, k)) < rank(k)
  }

  /** Everything the pass relies on. */
  ghost predicate Ready(code: Code, starts: set<nat>, rank: nat -> nat)
  {
    Laid(code, starts) && Ranked(code, starts, rank)
  }

  lemma StartOk(code: Code, starts: set<nat>, rank: nat -> nat, k: nat)
    requires Ready(code, starts, rank) && k in starts
    ensures InstOk(code, starts, k)
  {
  }

  /** `finaltarget` */
  ghost function FinalTarget(code: Code, starts: set<nat>, rank: nat -> nat, k: nat): (f: nat)
    requires Ready(code, starts, rank) && k in starts
    ensures f in starts && OpAt(code, f) != IJmp
    ensures rank(f) <= rank(k)
    ensures OpAt(code, k) != IJmp ==> f == k
    ensures OpAt(code, k) == IJmp ==> rank(f) < rank(k)
    decreases rank(k)
  {
    assert InstOk(code, starts, k);
    if OpAt(code, k) == IJmp then FinalTarget(code, starts, rank, Target(code, k)) else k
  }

  /** Positions of which each but the last is a jump to the next. */
  predicate JumpPath(code: Code, path: seq<nat>)
  {
    forall j | 0 <= j < |path| - 1 ::
      && OpAt(code, path[j]) == IJmp && path[j] + 1 < |code| && code[path[j] + 1].Offset?
      && Target(code, path[j]) == path[j + 1]
  }

  /** The final target is where following jumps leads. */
  lemma {:induction false} FinalTargetPath(code: Code, starts: set<nat>, rank: nat -> nat, k: nat)
    returns (path: seq<nat>)
    requires Ready(code, starts, rank) && k in starts
    ensures path != [] && path[0] == k && path[|path| - 1] == FinalTarget(code, starts, rank, k) && JumpPath(code, path)
    decreases rank(k)
  {
    assert InstOk(code, starts, k);
    path := [k];
    if OpAt(code, k) == IJmp {
      var rest := FinalTargetPath(code, starts, rank, Target(code, k));
      path := [k] + rest;
    }
  }

  /** `finallabel` */
  ghost function FinalLabel(code: Code, starts: set<nat>, rank: nat -> nat, k: nat): (f: nat)
    requires Ready(code, starts, rank) && k in starts && HasLabel(OpAt(code, k))
    ensures f in starts && OpAt(code, f) != IJmp
  {
    assert InstOk(code, starts, k);
    FinalTarget(code, starts, rank, Target(code, k))
  }

  predicate ImplicitJump(op: Opcode) { op == IRet || op == IFail || op == IFailTwice || op == IEnd }

  predicate ExplicitJump(op: Opcode) { op == ICommit || op == IPartialCommit || op == IBackCommit }

  /** One round of the loop, at instruction `i`. */
  ghost function PeepAt(code: Code, starts: set<nat>, rank: nat -> nat, i: nat): (r: Code)
    requires Ready(code, starts, rank) && i in starts
    ensures |r| == |code|
  {
    assert InstOk(code, starts, i);
    var op := OpAt(code, i);
    if op == IJmp then
      var ft := FinalTarget(code, starts, rank, i);
      assert InstOk(code, starts, ft);
      if ImplicitJump(OpAt(code, ft)) then
        code[i := code[ft]][i + 1 := Inst(IAny, 0)]
      else if ExplicitJump(OpAt(code, ft)) then
        code[i := code[ft]][i + 1 := Offset(FinalLabel(code, starts, rank, ft) - i)]
      else
        code[i + 1 := Offset(ft - i)]
    else if HasLabel(op) then
      code[i + 1 := Offset(FinalLabel(code, starts, rank, i) - i)]
    else code
  }

  /** A jump that became a one-slot instruction leaves a one-slot no-op behind. */
  ghost function PeepStarts(code: Code, starts: set<nat>, rank: nat -> nat, i: nat): set<nat>
    requires Ready(code, starts, rank) && i in starts
  {
    assert InstOk(code, starts, i);
    if OpAt(code, i) == IJmp && ImplicitJump(OpAt(code, FinalTarget(code, starts, rank, i)))
    then starts + {i + 1} else starts
  }

  /** Moving a label to another instruction keeps the code ready. */
  lemma RelabelReady(code: Code, starts: set<nat>, rank: nat -> nat, i: nat, f: nat)
    requires Ready(code, starts, rank) && i in starts && f in starts && HasLabel(OpAt(code, i))
    requires OpAt(code, i) == IJmp ==> rank(f) < rank(i)
    ensures i + 1 < |code| && Ready(code[i + 1 := Offset(f - i)], starts, rank)
  {
    assert InstOk(code, starts, i);
    var code' := code[i + 1 := Offset(f - i)];
    forall k | k in starts
      ensures InstOk(code', starts, k) && (OpAt(code', k) == IJmp ==> rank(Target(code', k)) < rank(k))
    {
      assert InstOk(code, starts, k);
      assert k != i + 1;
      if k != i { assert k + 1 != i + 1; }
    }
  }

  /** Replacing a jump by another two-slot instruction that is no jump. */
  lemma ReplaceReady(code: Code, starts: set<nat>, rank: nat -> nat, i: nat, inst: Slot)
    requires Ready(code, starts, rank) && i in starts && OpAt(code, i) == IJmp
    requires inst.Inst? && ExplicitJump(inst.code)
    ensures Ready(code[i := inst], starts, rank)
  {
    assert InstOk(code, starts, i);
    var code' := code[i := inst];
    forall k | k in starts
      ensures InstOk(code', starts, k) && (OpAt(code', k) == IJmp ==> rank(Target(code', k)) < rank(k))
    {
      assert InstOk(code, starts, k);
    }
  }

  /** Replacing a jump by a one-slot instruction and a no-op. */
  lemma ShrinkReady(code: Code, starts: set<nat>, rank: nat -> nat, i: nat, inst: Slot)
    requires Ready(code, starts, rank) && i in starts && OpAt(code, i) == IJmp
    requires inst.Inst? && ImplicitJump(inst.code)
    ensures i + 1 < |code| && Ready(code[i := inst][i + 1 := Inst(IAny, 0)], starts + {i + 1}, rank)
  {
    ShrinkHere(code, starts, rank, i, inst);
    var code' := code[i := inst][i + 1 := Inst(IAny, 0)];
    forall k | k in starts && k != i
      ensures InstOk(code', starts + {i + 1}, k) && (OpAt(code', k) == IJmp ==> rank(Target(code', k)) < rank(k))
    {
      ShrinkOther(code, starts, rank, i, inst, k);
    }
    hide InstOk;
  }

  lemma ShrinkHere(code: Code, starts: set<nat>, rank: nat -> nat, i: nat, inst: Slot)
    requires Ready(code, starts, rank) && i in starts && OpAt(code, i) == IJmp
    requires inst.Inst? && ImplicitJump(inst.code)
    ensures i + 1 < |code|
    ensures var code' := code[i := inst][i + 1 := Inst(IAny, 0)];
      && InstOk(code', starts + {i + 1}, i) && OpAt(code', i) == inst.code
      && InstOk(code', starts + {i + 1}, i + 1) && OpAt(code', i + 1) == IAny
  {
    StartOk(code, starts, rank, i);
    hide Ready;
  }

  lemma ShrinkOther(code: Code, starts: set<nat>, rank: nat -> nat, i: nat, inst: Slot, k: nat)
    requires Ready(code, starts, rank) && i in starts && OpAt(code, i) == IJmp
    requires inst.Inst? && ImplicitJump(inst.code) && k in starts && k != i
    ensures i + 1 < |code|
    ensures var code' := code[i := inst][i + 1 := Inst(IAny, 0)];
      InstOk(code', starts + {i + 1}, k) && (OpAt(code', k) == IJmp ==> rank(Target(code', k)) < rank(k))
  {
    assert InstOk(code, starts, i);
    assert InstOk(code, starts, k);
    var code' := code[i := inst][i + 1 := Inst(IAny, 0)];
    assert k != i + 1 && !(k < i < k + SizeI(code[k].code));
    assert code'[k] == code[k];
    if HasLabel(code[k].code) {
      assert k + 1 < k + SizeI(code[k].code);
      assert code'[k + 1] == code[k + 1];
    }
  }

  lemma PeepReady(code: Code, starts: set<nat>, rank: nat -> nat, i: nat)
    requires Ready(code, starts, rank) && i in starts
    ensures Ready(PeepAt(code, starts, rank, i), PeepStarts(code, starts, rank, i), rank)
    ensures i in PeepStarts(code, starts, rank, i)
  {
    hide Ready, NextOk, Alone;
    StartOk(code, starts, rank, i);
    if OpAt(code, i) == IJmp {
      var ft := FinalTarget(code, starts, rank, i);
      StartOk(code, starts, rank, ft);
      if ImplicitJump(OpAt(code, ft)) {
        ShrinkReady(code, starts, rank, i, code[ft]);
      } else if ExplicitJump(OpAt(code, ft)) {
        ReplaceReady(code, starts, rank, i, code[ft]);
        RelabelReady(code[i := code[ft]], starts, rank, i, FinalLabel(code, starts, rank, ft));
      } else {
        RelabelReady(code, starts, rank, i, ft);
      }
    } else if HasLabel(OpAt(code, i)) {
      RelabelReady(code, starts, rank, i, FinalLabel(code, starts, rank, i));
    }
  }

  // ----- the pass keeps every result -----

  /** Addresses that differ only by jumps still to be taken. */
  ghost predicate SameTarget(code: Code, starts: set<nat>, rank: nat -> nat, x: int, y: int)
    requires Ready(code, starts, rank)
  {
    (x == GIVEUP && y == GIVEUP) ||
    (x >= 0 && y >= 0 && x in starts && y in starts &&
     FinalTarget(code, starts, rank, x) == FinalTarget(code, starts, rank, y))
  }

  ghost predicate StackRel(code: Code, starts: set<nat>, rank: nat -> nat, a: Stack, b: Stack)
    requires Ready(code, starts, rank)
  {
    match (a, b)
    case (Nil, Nil) => true
    case (Push(p, s, u), Push(q, t, v)) =>
      s == t && SameTarget(code, starts, rank, p, q) && StackRel(code, starts, rank, u, v)
    case _ => false
  }

  ghost predicate ConfigRel(code: Code, starts: set<nat>, rank: nat -> nat, c: Config, d: Config)
    requires Ready(code, starts, rank)
  {
    match c
    case Run(p, i, st) =>
      d.Run? && d.pos == i && SameTarget(code, starts, rank, p, d.p) && StackRel(code, starts, rank, st, d.stack)
    case Halt(_) => c == d
    case Stuck => true
  }

  /** The same operation, with addresses that agree up to jumps. */
  ghost predicate InstrRel(code: Code, starts: set<nat>, rank: nat -> nat, a: Instr, b: Instr)
    requires Ready(code, starts, rank)
  {
    match (a, b)
    case (Any(n), Any(m)) => SameTarget(code, starts, rank, n, m)
    case (Char(c, n), Char(d, m)) => c == d && SameTarget(code, starts, rank, n, m)
    case (Set(c, n), Set(d, m)) => c == d && SameTarget(code, starts, rank, n, m)
    case (TestAny(l, n), TestAny(k, m)) =>
      SameTarget(code, starts, rank, l, k) && SameTarget(code, starts, rank, n, m)
    case (TestChar(c, l, n), TestChar(d, k, m)) =>
      c == d && SameTarget(code, starts, rank, l, k) && SameTarget(code, starts, rank, n, m)
    case (TestSet(c, l, n), TestSet(d, k, m)) =>
      c == d && SameTarget(code, starts, rank, l, k) && SameTarget(code, starts, rank, n, m)
    case (Span(c, n), Span(d, m)) => c == d && SameTarget(code, starts, rank, n, m)
    case (Behind(c, n), Behind(d, m)) => c == d && SameTarget(code, starts, rank, n, m)
    case (Choice(l, n), Choice(k, m)) =>
      SameTarget(code, starts, rank, l, k) && SameTarget(code, starts, rank, n, m)
    case (Call(l, n), Call(k, m)) =>
      SameTarget(code, starts, rank, l, k) && SameTarget(code, starts, rank, n, m)
    case (Commit(l), Commit(k)) => SameTarget(code, starts, rank, l, k)
    case (PartialCommit(l), PartialCommit(k)) => SameTarget(code, starts, rank, l, k)
    case (BackCommit(l), BackCommit(k)) => SameTarget(code, starts, rank, l, k)
    case (Ret, Ret) => true
    case (End, End) => true
    case (FailTwice, FailTwice) => true
    case (FailI, FailI) => true
    case _ => false
  }

  lemma {:induction false} BacktrackRel(code: Code, starts: set<nat>, rank: nat -> nat, a: Stack, b: Stack)
    requires Ready(code, starts, rank) && StackRel(code, starts, rank, a, b)
    ensures ConfigRel(code, starts, rank, Backtrack(a), Backtrack(b))
  {
    hide Ready, SameTarget;
    if a.Push? && a.s.Null? { BacktrackRel(code, starts, rank, a.rest, b.rest); }
  }

  lemma ExecRel(code: Code, starts: set<nat>, rank: nat -> nat, d: Instr, e: Instr,
                s: seq<Byte>, i: nat, a: Stack, b: Stack)
    requires Ready(code, starts, rank) && i <= |s|
    requires InstrRel(code, starts, rank, d, e) && StackRel(code, starts, rank, a, b)
    ensures ConfigRel(code, starts, rank, Exec(d, s, i, a), Exec(e, s, i, b))
  {
    hide Ready, SameTarget;
    BacktrackRel(code, starts, rank, a, b);
    if a.Push? { BacktrackRel(code, starts, rank, a.rest, b.rest); }
  }

  lemma SlotsDecode(code: Code, code': Code, y: nat)
    requires |code| == |code'| && y < |code| && code[y].Inst? && y + SizeI(code[y].code) <= |code|
    requires forall k: nat {:trigger code'[k]} | y <= k < y + SizeI(code[y].code) :: code'[k] == code[k]
    ensures Decode(code', y) == Decode(code, y)
  {
    assert code'[y] == code[y];
    var op := code[y].code;
    if HasLabel(op) { assert code'[y + 1] == code[y + 1]; }
    if op == ISet || op == ISpan {
      assert CharsetAt(code', y + 1) == CharsetAt(code, y + 1);
    } else if op == ITestSet {
      assert CharsetAt(code', y + 2) == CharsetAt(code, y + 2);
    }
  }

  lemma PeepTouches(code: Code, starts: set<nat>, rank: nat -> nat, i: nat)
    requires Ready(code, starts, rank) && i in starts
    ensures var code' := PeepAt(code, starts, rank, i);
      forall k: nat {:trigger code'[k]} | k < |code| && k != i && k != i + 1 :: code'[k] == code[k]
    ensures !HasLabel(OpAt(code, i)) ==> PeepAt(code, starts, rank, i) == code
  {
    hide Ready, NextOk, Alone;
    StartOk(code, starts, rank, i);
  }

  /** An instruction the round did not touch reads the same. */
  lemma UntouchedDecodes(code: Code, starts: set<nat>, rank: nat -> nat, i: nat, y: nat)
    requires Ready(code, starts, rank) && i in starts && y in starts && y != i
    ensures Decode(PeepAt(code, starts, rank, i), y) == Decode(code, y)
  {
    hide Ready, NextOk, PeepAt, Decode;
    StartOk(code, starts, rank, i);
    StartOk(code, starts, rank, y);
    PeepTouches(code, starts, rank, i);
    if HasLabel(OpAt(code, i)) {
      assert y != i + 1 && !(y < i < y + SizeI(OpAt(code, y)));
      SlotsDecode(code, PeepAt(code, starts, rank, i), y);
    }
  }

  /** An instruction that is not a jump, as seen from its own code. */
  lemma DecodeRefl(code: Code, starts: set<nat>, rank: nat -> nat, y: nat)
    requires Ready(code, starts, rank) && y in starts && OpAt(code, y) != IJmp
    ensures InstrRel(code, starts, rank, Decode(code, y), Decode(code, y))
  {
    StartOk(code, starts, rank, y);
  }

  /** In the rewritten code, control at `y` reaches an instruction related to the one that the
      jumps from `y` lead to in the old code. */
  lemma {:induction false} PeepReaches(code: Code, starts: set<nat>, rank: nat -> nat, i: nat,
                                       y: nat, s: seq<Byte>, pos: nat, st: Stack)
    returns (z: nat, m: nat)
    requires Ready(code, starts, rank) && i in starts && y in starts && pos <= |s|
    ensures Steps(PeepAt(code, starts, rank, i), s, Run(y, pos, st), m) == Run(z, pos, st)
    ensures InstrRel(code, starts, rank, Decode(code, FinalTarget(code, starts, rank, y)),
                     Decode(PeepAt(code, starts, rank, i), z))
    decreases rank(y)
  {
    hide Ready, NextOk, Alone, Decode, PeepAt, InstrRel;
    var code' := PeepAt(code, starts, rank, i);
    var f := FinalTarget(code, starts, rank, y);
    if y == i {
      z, m := PeepReachesHere(code, starts, rank, i, s, pos, st);
    } else {
      UntouchedDecodes(code, starts, rank, i, y);
      if OpAt(code, y) == IJmp {
        var t := JumpTarget(code, starts, rank, y);
        z, m := PeepReaches(code, starts, rank, i, t, s, pos, st);
        assert Step(code', s, Run(y, pos, st)) == Run(t, pos, st);
        m := m + 1;
      } else {
        DecodeRefl(code, starts, rank, y);
        z, m := y, 0;
      }
    }
  }

  lemma JumpTarget(code: Code, starts: set<nat>, rank: nat -> nat, y: nat) returns (t: nat)
    requires Ready(code, starts, rank) && y in starts && OpAt(code, y) == IJmp
    ensures t in starts && Decode(code, y) == Jmp(t) && rank(t) < rank(y)
    ensures FinalTarget(code, starts, rank, y) == FinalTarget(code, starts, rank, t)
  {
    StartOk(code, starts, rank, y);
    t := Target(code, y);
  }

  lemma PeepReachesHere(code: Code, starts: set<nat>, rank: nat -> nat, i: nat,
                        s: seq<Byte>, pos: nat, st: Stack)
    returns (z: nat, m: nat)
    requires Ready(code, starts, rank) && i in starts && pos <= |s|
    ensures Steps(PeepAt(code, starts, rank, i), s, Run(i, pos, st), m) == Run(z, pos, st)
    ensures InstrRel(code, starts, rank, Decode(code, FinalTarget(code, starts, rank, i)),
                     Decode(PeepAt(code, starts, rank, i), z))
  {
    hide Ready, NextOk, Alone, InstrRel, Decode;
    var f := FinalTarget(code, starts, rank, i);
    z, m := i, 0;
    if OpAt(code, i) != IJmp {
      RelabeledDecodes(code, starts, rank, i);
    } else if ImplicitJump(OpAt(code, f)) || ExplicitJump(OpAt(code, f)) {
      ReplacedDecodes(code, starts, rank, i);
    } else {
      var code' := PeepAt(code, starts, rank, i);
      JumpRelabeled(code, starts, rank, i);
      UntouchedDecodes(code, starts, rank, i, f);
      DecodeRefl(code, starts, rank, f);
      assert Step(code', s, Run(i, pos, st)) == Run(f, pos, st);
      z, m := f, 1;
      assert Steps(code', s, Run(i, pos, st), 1) == Steps(code', s, Run(f, pos, st), 0);
    }
  }

  /** A label moves to the end of its chain of jumps. */
  lemma RelabeledDecodes(code: Code, starts: set<nat>, rank: nat -> nat, i: nat)
    requires Ready(code, starts, rank) && i in starts && OpAt(code, i) != IJmp
    ensures InstrRel(code, starts, rank, Decode(code, i), Decode(PeepAt(code, starts, rank, i), i))
  {
    hide NextOk, Alone;
    StartOk(code, starts, rank, i);
    DecodeRefl(code, starts, rank, i);
    if HasLabel(OpAt(code, i)) {
      var code' := PeepAt(code, starts, rank, i);
      if OpAt(code, i) == ITestSet {
        assert CharsetAt(code', i + 2) == CharsetAt(code, i + 2);
      }
    }
  }

  /** A jump to an instruction that jumps becomes that instruction. */
  lemma ReplacedDecodes(code: Code, starts: set<nat>, rank: nat -> nat, i: nat)
    requires Ready(code, starts, rank) && i in starts && OpAt(code, i) == IJmp
    requires var f := FinalTarget(code, starts, rank, i); ImplicitJump(OpAt(code, f)) || ExplicitJump(OpAt(code, f))
    ensures InstrRel(code, starts, rank, Decode(code, FinalTarget(code, starts, rank, i)),
                     Decode(PeepAt(code, starts, rank, i), i))
  {
    hide NextOk, Alone;
    StartOk(code, starts, rank, i);
    var f := FinalTarget(code, starts, rank, i);
    StartOk(code, starts, rank, f);
    DecodeRefl(code, starts, rank, f);
  }

  lemma JumpRelabeled(code: Code, starts: set<nat>, rank: nat -> nat, i: nat)
    requires Ready(code, starts, rank) && i in starts && OpAt(code, i) == IJmp
    requires var f := FinalTarget(code, starts, rank, i); !ImplicitJump(OpAt(code, f)) && !ExplicitJump(OpAt(code, f))
    ensures Decode(PeepAt(code, starts, rank, i), i) == Jmp(FinalTarget(code, starts, rank, i))
  {
    StartOk(code, starts, rank, i);
  }

  /** One round keeps results: what the old code gives from a configuration, the new code gives
      from any configuration related to it. */
  lemma {:induction false} PeepSimulates(code: Code, starts: set<nat>, rank: nat -> nat, i: nat,
                                         s: seq<Byte>, c: Config, d: Config, n: nat, r: Res)
    requires Ready(code, starts, rank) && i in starts && ConfigRel(code, starts, rank, c, d)
    requires Steps(code, s, c, n) == Halt(r)
    ensures Gives(PeepAt(code, starts, rank, i), s, d, r)
    decreases n, 1
  {
    hide Ready, PeepAt, Decode, Exec, SameTarget, StackRel;
    var code' := PeepAt(code, starts, rank, i);
    if n == 0 {
      assert Steps(code', s, d, 0) == Halt(r);
    } else if c.Run? {
      StepSimulates(code, starts, rank, i, s, c, d, n, r);
    } else if c.Halt? {
      PeepSimulates(code, starts, rank, i, s, c, d, n - 1, r);
    } else {
      StuckStays(code, s, n);
    }
  }

  lemma {:induction false} StuckStays(code: Code, s: seq<Byte>, n: nat)
    ensures Steps(code, s, Stuck, n) == Stuck
    decreases n
  {
    if n > 0 { StuckStays(code, s, n - 1); }
  }

  /** `m` steps lead from `d` to `e`, which gives `r`. */
  lemma {:induction false} StepsThenGives(code: Code, s: seq<Byte>, d: Config, m: nat, r: Res)
    requires Gives(code, s, Steps(code, s, d, m), r)
    ensures Gives(code, s, d, r)
    decreases m
  {
    if m > 0 {
      StepsThenGives(code, s, Step(code, s, d), m - 1, r);
      StepSame(code, s, d);
    }
  }

  lemma {:induction false} StepSimulates(code: Code, starts: set<nat>, rank: nat -> nat, i: nat,
                                         s: seq<Byte>, c: Config, d: Config, n: nat, r: Res)
    requires Ready(code, starts, rank) && i in starts && ConfigRel(code, starts, rank, c, d)
    requires c.Run? && n > 0 && Steps(code, s, c, n) == Halt(r)
    ensures Gives(PeepAt(code, starts, rank, i), s, d, r)
    decreases n, 0
  {
    hide Ready, PeepAt, Decode, StackRel, InstrRel, Gives;
    var code' := PeepAt(code, starts, rank, i);
    if c.p == GIVEUP {
      PeepSimulates(code, starts, rank, i, s, Step(code, s, c), Step(code', s, d), n - 1, r);
      StepSame(code', s, d);
    } else if c.pos > |s| {
      StuckStays(code, s, n - 1);
    } else if OpAt(code, c.p) == IJmp {
      var t := JumpTarget(code, starts, rank, c.p);
      assert Step(code, s, c) == Run(t, c.pos, c.stack);
      PeepSimulates(code, starts, rank, i, s, Run(t, c.pos, c.stack), d, n - 1, r);
    } else {
      var z, m := PeepReaches(code, starts, rank, i, d.p, s, d.pos, d.stack);
      ExecRel(code, starts, rank, Decode(code, c.p), Decode(code', z), s, c.pos, c.stack, d.stack);
      var e := Run(z, d.pos, d.stack);
      PeepSimulates(code, starts, rank, i, s, Step(code, s, c), Step(code', s, e), n - 1, r);
      StepSame(code', s, e);
      StepsThenGives(code', s, d, m, r);
    }
  }

  /** `peephole`: the scan over the whole code, from instruction `i` on. */
  ghost function Peephole(code: Code, starts: set<nat>, rank: nat -> nat, i: nat): Code
    requires Ready(code, starts, rank) && (i in starts || i == |code|)
    decreases |code| - i
  {
    if i in starts then
      var code' := PeepAt(code, starts, rank, i);
      PeepReady(code, starts, rank, i);
      var starts' := PeepStarts(code, starts, rank, i);
      StartOk(code', starts', rank, i);
      Peephole(code', starts', rank, i + SizeI(OpAt(code', i)))
    else code
  }

  /** The optimised code gives every result the original code gives. */
  lemma {:induction false} PeepholeKeeps(code: Code, starts: set<nat>, rank: nat -> nat, i: nat,
                                         s: seq<Byte>, pos: nat, r: Res)
    requires Ready(code, starts, rank) && (i in starts || i == |code|)
    requires Gives(code, s, Init(pos), r)
    ensures Gives(Peephole(code, starts, rank, i), s, Init(pos), r)
    decreases |code| - i
  {
    hide Ready, PeepAt, PeepStarts;
    if i in starts {
      var n: nat :| Steps(code, s, Init(pos), n) == Halt(r);
      InitRel(code, starts, rank, pos);
      PeepSimulates(code, starts, rank, i, s, Init(pos), Init(pos), n, r);
      PeepReady(code, starts, rank, i);
      var code', starts' := PeepAt(code, starts, rank, i), PeepStarts(code, starts, rank, i);
      StartOk(code', starts', rank, i);
      PeepholeKeeps(code', starts', rank, i + SizeI(OpAt(code', i)), s, pos, r);
    }
  }

  lemma InitRel(code: Code, starts: set<nat>, rank: nat -> nat, pos: nat)
    requires Ready(code, starts, rank)
    ensures ConfigRel(code, starts, rank, Init(pos), Init(pos))
  {
    StartOk(code, starts, rank, 0);
  }
}
