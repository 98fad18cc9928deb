/** The compiler of lpcode.c as it works, appending to and patching one code array, and the
    guarantee for a whole pattern: compile, optimise, match. */
module LpegCompiler {
  import opened LpegTree
  import opened LpegAnalysis
  import opened LpegMachine
  import opened LpegCode
  import opened LpegCorrect
  import opened LpegPeephole
  import opened LpegLayout

  /** Code of a pattern before the peephole pass. */
  function RawCode(p: Tree): Code { Gen(p, false, NoTest, FullSet) + [Inst(IEnd, 0)] }

  /** The generated code of a whole pattern gives what the pattern means. */
  lemma RawCodeMatches(p: Tree, s: seq<Byte>, i: nat)
    requires Wf(p) && i <= |s|
    ensures Gives(RawCode(p), s, Init(i), Peg(p, s, i))
  {
    hide Gen, Wf, Decode, FixedLen, Gives;
    var code := RawCode(p);
    var g := Gen(p, false, NoTest, FullSet);
    var st := Push(GIVEUP, At(i), Nil);
    assert code[0..0 + |g|] == g;
    Correct(p, false, NoTest, FullSet, code, s, 0, i, st);
    if Peg(p, s, i).Fail? {
      GiveUpGives(code, s, i);
    } else {
      assert code[|g|] == Inst(IEnd, 0);
      EndGives(code, s, |g|, Peg(p, s, i).pos, st);
    }
  }

  lemma GiveUpGives(code: Code, s: seq<Byte>, i: nat)
    ensures Gives(code, s, Run(GIVEUP, i, Nil), Fail)
  {
    assert Steps(code, s, Run(GIVEUP, i, Nil), 1) == Halt(Fail);
  }

  lemma EndGives(code: Code, s: seq<Byte>, a: nat, j: nat, st: Stack)
    requires a < |code| && code[a] == Inst(IEnd, 0) && j <= |s|
    ensures Gives(code, s, Run(a, j, st), Ok(j))
  {
    assert Step(code, s, Run(a, j, st)) == Halt(Ok(j));
    assert Steps(code, s, Run(a, j, st), 1) == Steps(code, s, Halt(Ok(j)), 0);
  }

  /** Main theorem: for every pattern, subject and start, the optimised code stops, and with the
      result the pattern means and no other. */
  lemma CompiledMatches(p: Tree, starts: set<nat>, s: seq<Byte>, i: nat, r: Res)
    requires Wf(p) && i <= |s|
    requires var code := RawCode(p); Ready(code, starts, RankOf(code))
    ensures var code := RawCode(p);
      Gives(Peephole(code, starts, RankOf(code), 0), s, Init(i), r) <==> r == Peg(p, s, i)
  {
    hide Ready, Gives, Peephole;
    var code := RawCode(p);
    var rank := RankOf(code);
    InitRel(code, starts, rank, i);
    StartOk(code, starts, rank, 0);
    RawCodeMatches(p, s, i);
    PeepholeKeeps(code, starts, rank, 0, s, i, Peg(p, s, i));
    var best := Peephole(code, starts, rank, 0);
    if Gives(best, s, Init(i), r) {
      GivesUnique(best, s, Init(i), r, Peg(p, s, i));
    }
  }

  // ----- the compiler at work -----

  /** `tt` is the index of the dominating test instruction, or negative. */
  predicate TestIndexOk(code: Code, tt: int)
  {
    tt >= 0 ==>
      && tt < |code| && code[tt].Inst?
      && (code[tt].code == ITestChar ==> 0 <= code[tt].aux < 256)
      && (code[tt].code == ITestSet ==> tt + 10 <= |code|)
  }

  function DominatorAt(code: Code, tt: int): Dominator
    requires TestIndexOk(code, tt)
  {
    if tt < 0 then NoTest
    else if code[tt].code == ITestChar then OnChar(code[tt].aux)
    else if code[tt].code == ITestSet then OnSet(CharsetAt(code, tt + 2))
    else OnOther
  }

  lemma DominatorStays(code: Code, code': Code, tt: int)
    requires TestIndexOk(code, tt) && code <= code'
    ensures TestIndexOk(code', tt) && DominatorAt(code', tt) == DominatorAt(code, tt)
  {
    if tt >= 0 && code[tt].code == ITestSet {
      assert CharsetAt(code', tt + 2) == CharsetAt(code, tt + 2);
    }
  }

  const NOINST := -1

  /** `emitted` is `base` with a test appended whose offset is still open. */
  ghost predicate OpenTest(base: Code, emitted: Code, cs: Charset, e: bool)
  {
    && |emitted| == |base| + TestSize(cs, e)
    && (e ==> emitted == base)
    && (!e ==> forall offset {:trigger CodeTestSet(cs, e, offset)} ::
          emitted[|base| + 1 := Offset(offset)] == base + CodeTestSet(cs, e, offset))
  }

  /** A test with its offset open. */
  function OpenSlots(cs: Charset): seq<Slot>
  {
    match CharsetType(cs)
    case EmptyKind => [Inst(IJmp, 0), Inst(IAny, 0)]
    case AnyKind => [Inst(ITestAny, 0), Inst(IAny, 0)]
    case CharKind(c) => [Inst(ITestChar, c), Inst(IAny, 0)]
    case SetKind => [Inst(ITestSet, 0), Inst(IAny, 0)] + CharsetSlots(cs)
  }

  lemma {:induction false} TestEmitted(base: Code, cs: Charset, e: bool)
    ensures var emitted, i := if e then base else base + OpenSlots(cs), if e then NOINST else |base|;
      && OpenTest(base, emitted, cs, e) && TestIndexOk(emitted, i) && DominatorAt(emitted, i) == TestDominator(cs, e)
  {
    hide CharsetSlots, CharsetAt;
    if !e && CharsetType(cs).SetKind? { SetEmitted(base, cs); }
  }

  lemma {:induction false} SetEmitted(base: Code, cs: Charset)
    ensures var emitted := base + ([Inst(ITestSet, 0), Inst(IAny, 0)] + CharsetSlots(cs));
      && CharsetAt(emitted, |base| + 2) == cs
      && (forall offset ::
            emitted[|base| + 1 := Offset(offset)] == base + (Jump(ITestSet, 0, offset) + CharsetSlots(cs)))
  {
    hide CharsetSlots, CharsetAt;
    var emitted := base + ([Inst(ITestSet, 0), Inst(IAny, 0)] + CharsetSlots(cs));
    assert emitted == base + [Inst(ITestSet, 0), Inst(IAny, 0)] + CharsetSlots(cs);
    assert CodeAt(emitted, |base| + 2, CharsetSlots(cs));
    CharsetRoundTrip(emitted, |base| + 2, cs);
  }

  /** Patching a two-slot instruction behind which code has grown. */
  lemma JumpPatched(base: Code, op: Opcode, rest: seq<Slot>, offset: int)
    ensures (base + [Inst(op, 0), Inst(IAny, 0)] + rest)[|base| + 1 := Offset(offset)]
            == base + Jump(op, 0, offset) + rest
  {
  }

  lemma OpenTestSize(base: Code, emitted: Code, cs: Charset, e: bool)
    requires OpenTest(base, emitted, cs, e)
    ensures |emitted| == |base| + TestSize(cs, e)
    ensures forall offset {:trigger CodeTestSet(cs, e, offset)} :: |CodeTestSet(cs, e, offset)| == TestSize(cs, e)
  {
  }

  lemma TestPatched(base: Code, emitted: Code, cs: Charset, e: bool, rest: seq<Slot>, offset: int)
    requires OpenTest(base, emitted, cs, e)
    ensures (if e then emitted + rest else (emitted + rest)[|base| + 1 := Offset(offset)])
            == base + CodeTestSet(cs, e, offset) + rest
  {
    if !e {
      var k := |base| + 1;
      assert (emitted + rest)[k := Offset(offset)] == emitted[k := Offset(offset)] + rest;
    }
  }

  /** The four shapes of code that carry a test, written out. */
  lemma NotShape(p: Tree)
    requires p.TNot?
    ensures var (cs, e) := GetFirst(p.body, FullSet);
      var c := Gen(p.body, false, NoTest, FullSet);
      var rest := if HeadFail(p.body) then [Inst(IFail, 0)]
        else Jump(IChoice, 0, 2 + |c| + 1) + c + [Inst(IFailTwice, 0)];
      GenNot(p) == CodeTestSet(cs, e, TestSize(cs, e) + |rest|) + rest
  {
    hide Gen, CodeTestSet, GetFirst, HeadFail, TestSize;
  }

  lemma LoopShape(p: Tree, opt: bool, fl: Charset)
    requires p.TRep? && !ToCharset(p.body).0
    requires !(HeadFail(p.body) || (!AcceptsEmpty(p.body) && First(p.body, FullSet) !! fl))
    ensures var (cs, e) := GetFirst(p.body, FullSet);
      var c := Gen(p.body, false, NoTest, FullSet);
      var rest := (if opt then Jump(IPartialCommit, 0, 2) else Jump(IChoice, 0, 2 + |c| + 2))
                  + c + Jump(IPartialCommit, 0, -|c|);
      GenRep(p, opt, fl) == CodeTestSet(cs, e, TestSize(cs, e) + |rest|) + rest
  {
    hide Gen, CodeTestSet, GetFirst, HeadFail, TestSize;
  }

  lemma ExclusiveShape(p: Tree, opt: bool, fl: Charset)
    requires p.TChoice? && Exclusive(p.p1, p.p2, fl)
    ensures var cs1 := First(p.p1, FullSet);
      var c1 := Gen(p.p1, false, TestDominator(cs1, false), fl);
      var c2 := Gen(p.p2, opt, NoTest, fl);
      var j := if p.p2.TTrue? then [] else Jump(IJmp, 0, 2 + |c2|);
      GenChoice(p, opt, fl) == CodeTestSet(cs1, false, TestSize(cs1, false) + |c1| + |j|) + c1 + j + c2
  {
    hide Gen, CodeTestSet, GetFirst, HeadFail, TestSize;
  }

  lemma FullChoiceShape(p: Tree, opt: bool, fl: Charset)
    requires p.TChoice? && !Exclusive(p.p1, p.p2, fl) && !(opt && p.p2.TTrue?)
    ensures var (cs1, e1) := GetFirst(p.p1, FullSet);
      var c1 := Gen(p.p1, p.p2.TTrue?, TestDominator(cs1, e1), FullSet);
      var c2 := Gen(p.p2, opt, NoTest, fl);
      GenChoice(p, opt, fl) == CodeTestSet(cs1, e1, TestSize(cs1, e1) + 2 + |c1| + 2)
        + Jump(IChoice, 0, 2 + |c1| + 2) + c1 + Jump(ICommit, 0, 2 + |c2|) + c2
  {
    hide Gen, CodeTestSet, GetFirst, HeadFail, TestSize, Exclusive;
  }

  class CompileState {
    var code: seq<Slot>

    constructor ()
      ensures code == []
    {
      code := [];
    }

    method AddInstruction(op: Opcode, aux: int) returns (i: nat)
      modifies this
      ensures code == old(code) + [Inst(op, aux)] && i == |old(code)|
    {
      i := |code|;
      code := code + [Inst(op, aux)];
    }

    /** An instruction and space for its offset. */
    method AddOffsetInst(op: Opcode) returns (i: nat)
      modifies this
      ensures code == old(code) + [Inst(op, 0), Inst(IAny, 0)] && i == |old(code)|
    {
      i := AddInstruction(op, 0);
      var _ := AddInstruction(IAny, 0);
    }

    /** Patch `instruction`, if there is one, to jump to `target`. */
    method JumpToThere(instruction: int, target: int)
      requires instruction >= 0 ==> instruction + 1 < |code|
      modifies this
      ensures code == if instruction >= 0 then old(code)[instruction + 1 := Offset(target - instruction)] else old(code)
    {
      if instruction >= 0 {
        code := code[instruction + 1 := Offset(target - instruction)];
      }
    }

    method JumpToHere(instruction: int)
      requires instruction >= 0 ==> instruction + 1 < |code|
      modifies this
      ensures code == if instruction >= 0 then old(code)[instruction + 1 := Offset(|old(code)| - instruction)]
              else old(code)
    {
      JumpToThere(instruction, |code|);
    }

    method AddCharset(cs: Charset)
      modifies this
      ensures code == old(code) + CharsetSlots(cs)
    {
      for k := 0 to CHARSETINSTSIZE - 1
        invariant code == old(code) + CharsetSlots(cs)[..k]
      {
        code := code + [CharsetSlot(cs, k)];
      }
    }

    method EmitChar(c: Byte, tt: int)
      requires TestIndexOk(code, tt)
      modifies this
      ensures code == old(code) + CodeChar(c, DominatorAt(old(code), tt))
    {
      if tt >= 0 && code[tt].code == ITestChar && code[tt].aux == c {
        var _ := AddInstruction(IAny, 0);
      } else {
        var _ := AddInstruction(IChar, c);
      }
    }

    method EmitCharset(cs: Charset, tt: int)
      requires TestIndexOk(code, tt)
      modifies this
      ensures code == old(code) + CodeCharset(cs, DominatorAt(old(code), tt))
    {
      hide CharsetSlots, CharsetAt, CodeChar;
      match CharsetType(cs)
      case EmptyKind => var _ := AddInstruction(IFail, 0);
      case AnyKind => var _ := AddInstruction(IAny, 0);
      case CharKind(c) => EmitChar(c, tt);
      case SetKind =>
        if tt >= 0 && code[tt].code == ITestSet && CharsetAt(code, tt + 2) == cs {
          var _ := AddInstruction(IAny, 0);
        } else {
          var _ := AddInstruction(ISet, 0);
          AddCharset(cs);
        }
    }

    /** A test whose offset is still open; NOINST if the test must accept the empty string. */
    method EmitTestSet(cs: Charset, e: bool) returns (i: int)
      modifies this
      ensures i == if e then NOINST else |old(code)|
      ensures OpenTest(old(code), code, cs, e)
      ensures TestIndexOk(code, i) && DominatorAt(code, i) == TestDominator(cs, e)
    {
      hide OpenTest, TestIndexOk, DominatorAt, TestDominator, CharsetSlots, CodeTestSet;
      TestEmitted(code, cs, e);
      if e { return NOINST; }
      match CharsetType(cs) {
        case EmptyKind => i := AddOffsetInst(IJmp);
        case AnyKind => i := AddOffsetInst(ITestAny);
        case CharKind(c) =>
          i := AddOffsetInst(ITestChar);
          code := code[i := Inst(ITestChar, c)];
        case SetKind =>
          i := AddOffsetInst(ITestSet);
          AddCharset(cs);
      }
      assert code == old(code) + OpenSlots(cs);
    }

    /** `codegen`: append the code of `p`. */
    method Codegen(p: Tree, opt: bool, tt: int, fl: Charset)
      requires Wf(p) && TestIndexOk(code, tt)
      modifies this
      ensures code == old(code) + Gen(p, opt, DominatorAt(old(code), tt), fl)
      decreases p, 1
    {
      hide GenChoice, GenRep, GenNot, GenAnd, GetFirst, CodeCharset, CodeChar, FixedLen, CharsetAt, CharsetSlots,
        NeedFollow, TestIndexOk, DominatorAt, Nullable;
      match p
      case TChar(c) => EmitChar(c, tt);
      case TAny => var _ := AddInstruction(IAny, 0);
      case TSet(cs) => EmitCharset(cs, tt);
      case TTrue =>
      case TFalse => var _ := AddInstruction(IFail, 0);
      case TChoice(p1, p2) => EmitChoice(p, opt, fl);
      case TRep(q) => EmitRep(p, opt, fl);
      case TBehind(_, _) => EmitBehind(p);
      case TNot(q) => EmitNot(p);
      case TAnd(q) => EmitAnd(p, tt);
      case TSeq(_, _) => EmitSeq(p, opt, tt, fl);
    }

    method EmitBehind(p: Tree)
      requires p.TBehind? && Wf(p)
      modifies this
      ensures code == old(code) + ((if p.back > 0 then [Inst(IBehind, p.back)] else [])
                                   + Gen(p.body, false, NoTest, FullSet))
      decreases p, 0
    {
      hide Gen, FixedLen;
      if p.back > 0 { var _ := AddInstruction(IBehind, p.back); }
      Codegen(p.body, false, NOINST, FullSet);
    }

    method EmitSeq(p: Tree, opt: bool, tt: int, fl: Charset)
      requires p.TSeq? && Wf(p) && TestIndexOk(code, tt)
      modifies this
      ensures var dominator := DominatorAt(old(code), tt);
        code == old(code) + (Gen(p.p1, false, dominator, if NeedFollow(p.p1) then First(p.p2, fl) else FullSet)
                             + Gen(p.p2, opt, if FixedLen(p.p1) != 0 then NoTest else dominator, fl))
      decreases p, 0
    {
      hide Gen, GetFirst, FixedLen, CharsetAt, NeedFollow;
      var tt2 := EmitSeq1(p.p1, p.p2, tt, fl);
      Codegen(p.p2, opt, tt2, fl);
    }

    /** First child of a sequence; tells which test still protects the second. */
    method EmitSeq1(q1: Tree, q2: Tree, tt: int, fl: Charset) returns (tt2: int)
      requires Wf(q1) && Wf(q2) && TestIndexOk(code, tt)
      modifies this
      ensures var follow := if NeedFollow(q1) then First(q2, fl) else FullSet;
              code == old(code) + Gen(q1, false, DominatorAt(old(code), tt), follow)
      ensures TestIndexOk(code, tt2)
      ensures DominatorAt(code, tt2) == if FixedLen(q1) != 0 then NoTest else DominatorAt(old(code), tt)
      decreases q1, 2
    {
      if NeedFollow(q1) {
        Codegen(q1, false, tt, First(q2, fl));
      } else {
        Codegen(q1, false, tt, FullSet);
      }
      DominatorStays(old(code), code, tt);
      tt2 := if FixedLen(q1) != 0 then NOINST else tt;
    }

    method EmitAnd(p: Tree, tt: int)
      requires p.TAnd? && Wf(p) && TestIndexOk(code, tt)
      modifies this
      ensures code == old(code) + GenAnd(p, DominatorAt(old(code), tt))
      decreases p, 0
    {
      hide Gen, HeadFail, FixedLen, CharsetAt;
      var q := p.body;
      var n := FixedLen(q);
      if 0 <= n <= MAXBEHIND {
        Codegen(q, false, tt, FullSet);
        if n > 0 { var _ := AddInstruction(IBehind, n); }
      } else {
        EmitAndChoice(q, tt);
      }
    }

    /** The predicate by a choice and a back-commit. */
    method EmitAndChoice(q: Tree, tt: int)
      requires Wf(q) && TestIndexOk(code, tt)
      modifies this
      ensures var c := Gen(q, false, DominatorAt(old(code), tt), FullSet);
        code == old(code) + (Jump(IChoice, 0, 2 + |c| + 2) + c + Jump(IBackCommit, 0, 3) + [Inst(IFail, 0)])
      decreases q, 2
    {
      hide Gen, HeadFail, FixedLen, CharsetAt, Wf;
      ghost var base := code;
      var pchoice := AddOffsetInst(IChoice);
      DominatorStays(base, code, tt);
      Codegen(q, false, tt, FullSet);
      ghost var c := Gen(q, false, DominatorAt(base, tt), FullSet);
      EndAndChoice(pchoice, base, c);
    }

    method EndAndChoice(pchoice: int, ghost base: Code, ghost c: seq<Slot>)
      requires code == base + [Inst(IChoice, 0), Inst(IAny, 0)] + c && pchoice == |base|
      modifies this
      ensures code == base + (Jump(IChoice, 0, 2 + |c| + 2) + c + Jump(IBackCommit, 0, 3) + [Inst(IFail, 0)])
    {
      var pcommit := AddOffsetInst(IBackCommit);
      ghost var open := [Inst(IBackCommit, 0), Inst(IAny, 0)];
      assert code == base + [Inst(IChoice, 0), Inst(IAny, 0)] + (c + open);
      JumpPatched(base, IChoice, c + open, 2 + |c| + 2);
      JumpToHere(pchoice);
      ghost var front := base + Jump(IChoice, 0, 2 + |c| + 2) + c;
      assert code == front + open;
      var _ := AddInstruction(IFail, 0);
      JumpPatched(front, IBackCommit, [Inst(IFail, 0)], 3);
      JumpToHere(pcommit);
    }

    method EmitNot(p: Tree)
      requires p.TNot? && Wf(p)
      modifies this
      ensures code == old(code) + GenNot(p)
      decreases p, 0
    {
      hide Gen, GenNot, GenChoice, CodeTestSet, CharsetType, HeadFail, GetFirst, CharsetAt, OpenTest, TestSize;
      var q := p.body;
      var (st, e) := GetFirst(q, FullSet);
      var test := EmitTestSet(st, e);
      ghost var base, tested := old(code), code;
      ghost var rest;
      if HeadFail(q) {
        HeadFailSound(q);
        var _ := AddInstruction(IFail, 0);
        rest := [Inst(IFail, 0)];
      } else {
        EmitNotBody(q);
        ghost var c := Gen(q, false, NoTest, FullSet);
        rest := Jump(IChoice, 0, 2 + |c| + 1) + c + [Inst(IFailTwice, 0)];
      }
      PatchTest(base, tested, test, st, e, rest);
      NotShape(p);
    }

    /** choice L1; <p>; failtwice; L1: */
    method EmitNotBody(q: Tree)
      requires Wf(q)
      modifies this
      ensures var c := Gen(q, false, NoTest, FullSet);
        code == old(code) + (Jump(IChoice, 0, 2 + |c| + 1) + c + [Inst(IFailTwice, 0)])
      decreases q, 2
    {
      hide Gen, Wf, CharsetAt;
      var pchoice := AddOffsetInst(IChoice);
      Codegen(q, false, NOINST, FullSet);
      var _ := AddInstruction(IFailTwice, 0);
      ghost var tail := Gen(q, false, NoTest, FullSet) + [Inst(IFailTwice, 0)];
      assert code == old(code) + [Inst(IChoice, 0), Inst(IAny, 0)] + tail;
      JumpToHere(pchoice);
      JumpPatched(old(code), IChoice, tail, 2 + |tail|);
    }

    /** Let the open test at `test` jump to here. */
    method PatchTest(ghost base: Code, ghost tested: Code, test: int, ghost cs: Charset, ghost e: bool,
                     ghost rest: seq<Slot>)
      requires OpenTest(base, tested, cs, e) && code == tested + rest
      requires test == if e then NOINST else |base|
      modifies this
      ensures code == base + CodeTestSet(cs, e, TestSize(cs, e) + |rest|) + rest && |code| == |old(code)|
    {
      hide CharsetType, CodeTestSet;
      JumpToHere(test);
      TestPatched(base, tested, cs, e, rest, TestSize(cs, e) + |rest|);
    }

    method EmitRep(p: Tree, opt: bool, fl: Charset)
      requires p.TRep? && Wf(p)
      modifies this
      ensures code == old(code) + GenRep(p, opt, fl)
      decreases p, 0
    {
      hide Gen, CodeTestSet, CharsetType, HeadFail, GetFirst, CharsetAt, OpenTest, TestSize;
      var q := p.body;
      var (chars, st) := ToCharset(q);
      if chars {
        var _ := AddInstruction(ISpan, 0);
        AddCharset(st);
        return;
      }
      var (cs, e1) := GetFirst(q, FullSet);
      if HeadFail(q) || (!e1 && cs !! fl) {
        EmitTestLoop(q);
        ghost var c := Gen(q, false, TestDominator(cs, false), FullSet);
        ghost var n := TestSize(cs, false) + |c|;
        assert GenRep(p, opt, fl) == CodeTestSet(cs, false, n + 2) + c + Jump(IJmp, 0, -n);
      } else {
        EmitFullLoop(p, opt, fl);
      }
    }

    method EmitFullLoop(p: Tree, opt: bool, fl: Charset)
      requires p.TRep? && Wf(p) && !ToCharset(p.body).0
      requires !(HeadFail(p.body) || (!AcceptsEmpty(p.body) && First(p.body, FullSet) !! fl))
      modifies this
      ensures code == old(code) + GenRep(p, opt, fl)
      decreases p, 0, 0
    {
      hide Gen, GenRep, CodeTestSet, CharsetType, HeadFail, GetFirst, CharsetAt, OpenTest, TestSize;
      var q := p.body;
      var (cs, e1) := GetFirst(q, FullSet);
      ghost var base := code;
      var test := EmitTestSet(cs, e1);
      ghost var tested := code;
      EmitLoop(q, opt);
      ghost var c := Gen(q, false, NoTest, FullSet);
      ghost var rest := (if opt then Jump(IPartialCommit, 0, 2) else Jump(IChoice, 0, 2 + |c| + 2))
                        + c + Jump(IPartialCommit, 0, -|c|);
      PatchTest(base, tested, test, cs, e1, rest);
      LoopShape(p, opt, fl);
    }

    /** L1: test -> L2; <p>; jmp L1; L2: */
    method EmitTestLoop(q: Tree)
      requires Wf(q)
      modifies this
      ensures var cs := First(q, FullSet);
        var c := Gen(q, false, TestDominator(cs, false), FullSet);
        var n := TestSize(cs, false) + |c|;
        code == old(code) + (CodeTestSet(cs, false, n + 2) + c + Jump(IJmp, 0, -n))
      decreases q, 2
    {
      hide Gen, CodeTestSet, CharsetType, GetFirst, CharsetAt, OpenTest, Wf, TestSize;
      var cs := First(q, FullSet);
      ghost var base := code;
      var test := EmitTestSet(cs, false);
      ghost var tested := code;
      Codegen(q, false, test, FullSet);
      ghost var c := Gen(q, false, TestDominator(cs, false), FullSet);
      var jmp := AddOffsetInst(IJmp);
      ghost var n := TestSize(cs, false) + |c|;
      ghost var open := c + [Inst(IJmp, 0), Inst(IAny, 0)];
      assert |tested| == |base| + TestSize(cs, false) by { OpenTestSize(base, tested, cs, false); }
      PatchTest(base, tested, test, cs, false, open);
      assert code == base + CodeTestSet(cs, false, n + 2) + c + [Inst(IJmp, 0), Inst(IAny, 0)] + [];
      JumpToThere(jmp, test);
      JumpPatched(base + CodeTestSet(cs, false, n + 2) + c, IJmp, [], -n);
    }

    /** choice L2 (or partialcommit, reusing a choice); L1: <p>; partialcommit L1; L2: */
    method EmitLoop(q: Tree, opt: bool)
      requires Wf(q)
      modifies this
      ensures var c := Gen(q, false, NoTest, FullSet);
        code == old(code) + ((if opt then Jump(IPartialCommit, 0, 2) else Jump(IChoice, 0, 2 + |c| + 2))
                             + c + Jump(IPartialCommit, 0, -|c|))
      decreases q, 3
    {
      hide Gen, Wf, CharsetAt;
      ghost var base := code;
      var pchoice := NOINST;
      if opt {
        var partial := AddOffsetInst(IPartialCommit);
        JumpToHere(partial);
        assert code == base + Jump(IPartialCommit, 0, 2);
      } else {
        pchoice := AddOffsetInst(IChoice);
      }
      EmitLoopBody(q);
      ghost var c := Gen(q, false, NoTest, FullSet);
      JumpToHere(pchoice);
      if !opt { JumpPatched(base, IChoice, c + Jump(IPartialCommit, 0, -|c|), 2 + |c| + 2); }
    }

    method EmitLoopBody(q: Tree)
      requires Wf(q)
      modifies this
      ensures var c := Gen(q, false, NoTest, FullSet);
        code == old(code) + (c + Jump(IPartialCommit, 0, -|c|))
      decreases q, 2
    {
      hide Gen, Wf, CharsetAt;
      var l2 := |code|;
      ghost var head := code;
      Codegen(q, false, NOINST, FullSet);
      ghost var c := Gen(q, false, NoTest, FullSet);
      var commit := AddOffsetInst(IPartialCommit);
      JumpToThere(commit, l2);
      JumpPatched(head + c, IPartialCommit, [], -|c|);
    }

    method EmitChoice(p: Tree, opt: bool, fl: Charset)
      requires p.TChoice? && Wf(p)
      modifies this
      ensures code == old(code) + GenChoice(p, opt, fl)
      decreases p, 0
    {
      hide Gen, Exclusive, CodeTestSet, CharsetAt, GetFirst;
      var p1, p2 := p.p1, p.p2;
      if Exclusive(p1, p2, fl) {
        EmitExclusive(p, opt, fl);
      } else if opt && p2.TTrue? {
        var partial := AddOffsetInst(IPartialCommit);
        JumpToHere(partial);
        Codegen(p1, true, NOINST, FullSet);
      } else {
        EmitFullChoice(p, opt, fl);
      }
    }

    /** test -> L1; <p1>; jmp; L1:, the jump still open and left out when nothing follows */
    method EmitGuarded(p1: Tree, emptyp2: bool, fl: Charset) returns (jmp: int)
      requires Wf(p1)
      modifies this
      ensures var cs1 := First(p1, FullSet);
        var c1 := Gen(p1, false, TestDominator(cs1, false), fl);
        var open := if emptyp2 then [] else [Inst(IJmp, 0), Inst(IAny, 0)];
        && code == old(code) + CodeTestSet(cs1, false, TestSize(cs1, false) + |c1| + |open|) + c1 + open
        && jmp == if emptyp2 then NOINST else |code| - 2
      decreases p1, 2
    {
      hide Gen, Wf, CodeTestSet, CharsetType, GetFirst, CharsetAt, OpenTest, TestSize;
      var cs1 := First(p1, FullSet);
      ghost var base := code;
      var test := EmitTestSet(cs1, false);
      ghost var tested := code;
      jmp := NOINST;
      Codegen(p1, false, test, fl);
      ghost var c1 := Gen(p1, false, TestDominator(cs1, false), fl);
      if !emptyp2 { jmp := AddOffsetInst(IJmp); }
      ghost var open := if emptyp2 then [] else [Inst(IJmp, 0), Inst(IAny, 0)];
      PatchTest(base, tested, test, cs1, false, c1 + open);
    }

    /** test -> L1; <p1>; jmp L2; L1: <p2>; L2: */
    method EmitExclusive(p: Tree, opt: bool, fl: Charset)
      requires p.TChoice? && Wf(p) && Exclusive(p.p1, p.p2, fl)
      modifies this
      ensures code == old(code) + GenChoice(p, opt, fl)
      decreases p, 0, 0
    {
      hide Gen, GenChoice, Exclusive, CodeTestSet, CharsetType, GetFirst, CharsetAt, TestSize;
      var emptyp2 := p.p2.TTrue?;
      ghost var base := code;
      var jmp := EmitGuarded(p.p1, emptyp2, fl);
      ghost var open := if emptyp2 then [] else [Inst(IJmp, 0), Inst(IAny, 0)];
      ghost var front := code[..|code| - |open|];
      assert code == front + open;
      Codegen(p.p2, opt, NOINST, fl);
      ghost var c2 := Gen(p.p2, opt, NoTest, fl);
      assert code == front + open + c2;
      JumpToHere(jmp);
      if !emptyp2 { JumpPatched(front, IJmp, c2, 2 + |c2|); }
      ExclusiveShape(p, opt, fl);
    }

    /** test -> L1; choice L1; <p1>; commit; L1:, the commit still open */
    method EmitProtected(p1: Tree, emptyp2: bool) returns (pcommit: nat)
      requires Wf(p1)
      modifies this
      ensures var (cs1, e1) := GetFirst(p1, FullSet);
        var c1 := Gen(p1, emptyp2, TestDominator(cs1, e1), FullSet);
        && code == old(code) + CodeTestSet(cs1, e1, TestSize(cs1, e1) + 2 + |c1| + 2)
                   + Jump(IChoice, 0, 2 + |c1| + 2) + c1 + [Inst(ICommit, 0), Inst(IAny, 0)]
        && pcommit == |code| - 2
      decreases p1, 2
    {
      hide Gen, Wf, CodeTestSet, CharsetType, GetFirst, CharsetAt, OpenTest, TestSize;
      var (cs1, e1) := GetFirst(p1, FullSet);
      ghost var base := code;
      var test := EmitTestSet(cs1, e1);
      ghost var tested := code;
      var pchoice := AddOffsetInst(IChoice);
      DominatorStays(tested, code, test);
      Codegen(p1, emptyp2, test, FullSet);
      ghost var c1 := Gen(p1, emptyp2, TestDominator(cs1, e1), FullSet);
      pcommit := EndProtected(pchoice, tested, c1);
      PatchTest(base, tested, test, cs1, e1,
                Jump(IChoice, 0, 2 + |c1| + 2) + (c1 + [Inst(ICommit, 0), Inst(IAny, 0)]));
    }

    /** The open commit behind the first alternative; the choice goes behind that. */
    method EndProtected(pchoice: int, ghost base: Code, ghost c: seq<Slot>) returns (pcommit: nat)
      requires code == base + [Inst(IChoice, 0), Inst(IAny, 0)] + c && pchoice == |base|
      modifies this
      ensures code == base + Jump(IChoice, 0, 2 + |c| + 2) + (c + [Inst(ICommit, 0), Inst(IAny, 0)])
      ensures pcommit == |code| - 2
    {
      pcommit := AddOffsetInst(ICommit);
      ghost var open := c + [Inst(ICommit, 0), Inst(IAny, 0)];
      assert code == base + [Inst(IChoice, 0), Inst(IAny, 0)] + open;
      JumpPatched(base, IChoice, open, 2 + |c| + 2);
      JumpToHere(pchoice);
    }

    /** test -> L1; choice L1; <p1>; commit L2; L1: <p2>; L2: */
    method EmitFullChoice(p: Tree, opt: bool, fl: Charset)
      requires p.TChoice? && Wf(p) && !Exclusive(p.p1, p.p2, fl) && !(opt && p.p2.TTrue?)
      modifies this
      ensures code == old(code) + GenChoice(p, opt, fl)
      decreases p, 0, 0
    {
      hide Gen, GenChoice, Exclusive, CodeTestSet, CharsetType, GetFirst, CharsetAt, TestSize;
      var pcommit := EmitProtected(p.p1, p.p2.TTrue?);
      ghost var front := code[..|code| - 2];
      assert code == front + [Inst(ICommit, 0), Inst(IAny, 0)];
      Codegen(p.p2, opt, NOINST, fl);
      ghost var c2 := Gen(p.p2, opt, NoTest, fl);
      JumpToHere(pcommit);
      JumpPatched(front, ICommit, c2, 2 + |c2|);
      FullChoiceShape(p, opt, fl);
    }

    /** `finaltarget`: follow jumps to where they lead. */
    method FindFinalTarget(i: nat, ghost starts: set<nat>, ghost rank: nat -> nat) returns (f: nat)
      requires Ready(code, starts, rank) && i in starts
      ensures f == FinalTarget(code, starts, rank, i)
    {
      f := i;
      StartOk(code, starts, rank, f);
      while code[f].code == IJmp
        invariant f in starts && InstOk(code, starts, f)
        invariant FinalTarget(code, starts, rank, f) == FinalTarget(code, starts, rank, i)
        decreases rank(f)
      {
        f := Target(code, f);
        StartOk(code, starts, rank, f);
      }
    }

    /** `peephole`, in place. */
    method OptimizeJumps(ghost starts: set<nat>, ghost rank: nat -> nat)
      requires Ready(code, starts, rank)
      modifies this
      ensures code == Peephole(old(code), starts, rank, 0)
    {
      hide Ready, PeepAt, PeepStarts, Alone;
      InitRel(code, starts, rank, 0);
      ghost var st := starts;
      var i := 0;
      while i < |code|
        invariant Ready(code, st, rank) && (i in st || i == |code|)
        invariant Peephole(code, st, rank, i) == Peephole(old(code), starts, rank, 0)
        decreases |code| - i
      {
        StartOk(code, st, rank, i);
        PeepReady(code, st, rank, i);
        ghost var next, st2 := PeepAt(code, st, rank, i), PeepStarts(code, st, rank, i);
        StartOk(next, st2, rank, i);
        OptimizeOne(i, st, rank);
        st := st2;
        i := i + SizeI(code[i].code);
      }
      if i in st { StartOk(code, st, rank, i); }
    }

    method OptimizeOne(i: nat, ghost starts: set<nat>, ghost rank: nat -> nat)
      requires Ready(code, starts, rank) && i in starts
      modifies this
      ensures code == PeepAt(old(code), starts, rank, i)
    {
      hide Ready, NextOk, Alone, FinalTarget;
      StartOk(code, starts, rank, i);
      var op := code[i].code;
      if op == IJmp {
        OptimizeJump(i, starts, rank);
      } else if HasLabel(op) {
        var fl := FindFinalTarget(Target(code, i), starts, rank);
        JumpToThere(i, fl);
      }
    }

    /** A jump to an instruction that jumps becomes that instruction. */
    method OptimizeJump(i: nat, ghost starts: set<nat>, ghost rank: nat -> nat)
      requires Ready(code, starts, rank) && i in starts && OpAt(code, i) == IJmp
      modifies this
      ensures code == PeepAt(old(code), starts, rank, i)
    {
      hide Ready, NextOk, Alone, FinalTarget, ImplicitJump, ExplicitJump, HasLabel, SizeI;
      StartOk(code, starts, rank, i);
      JumpHasLabel();
      var ft := FindFinalTarget(i, starts, rank);
      StartOk(code, starts, rank, ft);
      var op := code[ft].code;
      if ImplicitJump(op) {
        code := code[i := code[ft]][i + 1 := Inst(IAny, 0)];
      } else if ExplicitJump(op) {
        ImplicitOrExplicit(op);
        var fft := FindFinalTarget(Target(code, ft), starts, rank);
        code := code[i := code[ft]][i + 1 := Offset(fft - i)];
      } else {
        code := code[i + 1 := Offset(ft - i)];
      }
    }
  }

  lemma JumpHasLabel()
    ensures HasLabel(IJmp) && SizeI(IJmp) == 2
  {
  }

  lemma ImplicitOrExplicit(op: Opcode)
    requires ExplicitJump(op)
    ensures !ImplicitJump(op) && HasLabel(op)
  {
  }

  /** `compile`: code for a pattern that matches exactly as the pattern means. */
  method CompilePattern(p: Tree) returns (code: Code)
    requires Wf(p)
    ensures forall s: seq<Byte>, i: nat | i <= |s| :: Gives(code, s, Init(i), Peg(p, s, i))
  {
    hide Gen, Peg, Gives;
    var compst := new CompileState();
    compst.Codegen(p, false, NOINST, FullSet);
    assert compst.code == [] + Gen(p, false, NoTest, FullSet);
    var _ := compst.AddInstruction(IEnd, 0);
    assert compst.code == RawCode(p);
    ghost var starts := PatternReady(p);
    compst.OptimizeJumps(starts, RankOf(RawCode(p)));
    code := compst.code;
    forall s: seq<Byte>, i: nat | i <= |s| ensures Gives(code, s, Init(i), Peg(p, s, i)) {
      CompiledMatches(p, starts, s, i, Peg(p, s, i));
    }
  }

  /** `match`: the interpreter loop, for code that stops on this subject. */
  method Match(code: Code, s: seq<Byte>, i: nat, ghost r: Res) returns (q: Res)
    requires i <= |s| && Gives(code, s, Init(i), r)
    ensures q == r
  {
    ghost var n: nat :| Steps(code, s, Init(i), n) == Halt(r);
    var p, pos, stack := 0, i, Push(GIVEUP, At(i), Nil);
    while p != GIVEUP
      invariant Steps(code, s, Run(p, pos, stack), n) == Halt(r)
      decreases n
    {
      var next := Step(code, s, Run(p, pos, stack));
      n := n - 1;
      if next.Halt? {
        HaltStays(code, s, next.res, n);
        return next.res;
      }
      if next.Stuck? { StuckStays(code, s, n); }
      p, pos, stack := next.p, next.pos, next.stack;
    }
    HaltStays(code, s, Fail, n - 1);
    q := Fail;
  }

  /** Compiling and matching is matching by meaning. */
  method MatchPattern(p: Tree, s: seq<Byte>, i: nat) returns (r: Res)
    requires Wf(p) && i <= |s|
    ensures r == Peg(p, s, i)
  {
    var code := CompilePattern(p);
    r := Match(code, s, i, Peg(p, s, i));
  }
}
