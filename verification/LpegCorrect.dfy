/** The code generated for a tree does what the tree means.

    A segment is correct relative to its context: whatever follows may rely on `fl` (a next byte
    outside it makes the continuation fail), on the test that dominates the segment, and, when
    `opt` is set, on the choice entry on top of the stack whose commit follows the segment. */
module LpegCorrect {
  import opened LpegTree
  import opened LpegAnalysis
  import opened LpegMachine
  import opened LpegCode

  predicate CodeAt(code: Code, a: nat, g: seq<Slot>)
  {
    a + |g| <= |code| && code[a..a + |g|] == g
  }

  lemma CodeAtSplit(code: Code, a: nat, g: seq<Slot>, h: seq<Slot>)
    requires CodeAt(code, a, g + h)
    ensures CodeAt(code, a, g) && CodeAt(code, a + |g|, h)
  {
    var gh := g + h;
    assert code[a..a + |gh|] == gh;
    assert code[a..a + |g|] == gh[..|g|] == g;
    assert code[a + |g|..a + |gh|] == gh[|g|..] == h;
  }

  lemma CodeAtIndex(code: Code, a: nat, g: seq<Slot>, k: nat)
    requires CodeAt(code, a, g) && k < |g|
    ensures code[a + k] == g[k]
  {
    assert code[a..a + |g|][k] == g[k];
  }

  /** A buffer filled by `addcharset` reads back as the same set. */
  lemma CharsetRoundTrip(code: Code, at: nat, cs: Charset)
    requires CodeAt(code, at, CharsetSlots(cs))
    ensures CharsetAt(code, at) == cs
  {
    forall b: Byte ensures b in CharsetAt(code, at) <==> b in cs {
      CodeAtIndex(code, at, CharsetSlots(cs), b / 32);
      assert code[at + b / 32] == CharsetSlot(cs, b / 32);
    }
  }

  ghost predicate TestHolds(tt: Dominator, s: seq<Byte>, i: nat)
  {
    match tt
    case OnChar(c) => i < |s| && s[i] == c
    case OnSet(cs) => i < |s| && s[i] in cs
    case _ => true
  }

  /** Positions at which a match of `p` that starts at `i` can end, as far as `fixedlen` knows. */
  predicate CanEnd(p: Tree, i: nat, j: nat)
  {
    i <= j && (FixedLen(p) >= 0 ==> j == i + FixedLen(p))
  }

  /** After the segment for `p`, a next byte outside `fl` leads to failure. */
  ghost predicate FollowOk(code: Code, s: seq<Byte>, b: int, fl: Charset, st: Stack, p: Tree, i: nat)
  {
    forall j: nat {:trigger Run(b, j, st)} |
      CanEnd(p, i, j) && j < |s| && s[j] !in fl :: Same(code, s, Run(b, j, st), Backtrack(st))
  }

  /** An `opt` segment ends at the commit of the choice entry on top of the stack. */
  ghost predicate OptOk(code: Code, b: int, st: Stack)
  {
    st.Push? && st.s.At? && Decode(code, b) == Commit(st.p)
  }

  function After(r: Res, b: int, st: Stack): Config
  {
    match r
    case Fail => Backtrack(st)
    case Ok(j) => Run(b, j, st)
  }

  /** One instruction that is not at the giveup address. */
  lemma ExecSame(code: Code, s: seq<Byte>, p: nat, i: nat, st: Stack)
    requires i <= |s|
    ensures Same(code, s, Run(p, i, st), Exec(Decode(code, p), s, i, st))
  {
    StepSame(code, s, Run(p, i, st));
  }

  lemma JumpDecodes(code: Code, a: nat, op: Opcode, aux: int, offset: int)
    requires CodeAt(code, a, Jump(op, aux, offset)) && HasLabel(op) && op != ITestSet
    ensures a + 1 < |code| && code[a] == Inst(op, aux) && code[a + 1] == Offset(offset)
  {
    CodeAtIndex(code, a, Jump(op, aux, offset), 0);
    CodeAtIndex(code, a, Jump(op, aux, offset), 1);
  }

  /** One lemma per opcode that shapes control: what executing it at `a` amounts to. */
  lemma AtJump(code: Code, s: seq<Byte>, a: nat, offset: int, i: nat, st: Stack)
    requires CodeAt(code, a, Jump(IJmp, 0, offset)) && i <= |s|
    ensures Same(code, s, Run(a, i, st), Run(a + offset, i, st))
  {
    JumpDecodes(code, a, IJmp, 0, offset);
    ExecSame(code, s, a, i, st);
  }

  lemma AtChoice(code: Code, s: seq<Byte>, a: nat, offset: int, i: nat, st: Stack)
    requires CodeAt(code, a, Jump(IChoice, 0, offset)) && i <= |s|
    ensures Same(code, s, Run(a, i, st), Run(a + 2, i, Push(a + offset, At(i), st)))
  {
    JumpDecodes(code, a, IChoice, 0, offset);
    ExecSame(code, s, a, i, st);
  }

  lemma AtCommit(code: Code, s: seq<Byte>, a: nat, offset: int, i: nat, st: Stack)
    requires CodeAt(code, a, Jump(ICommit, 0, offset)) && i <= |s| && st.Push? && st.s.At?
    ensures Same(code, s, Run(a, i, st), Run(a + offset, i, st.rest))
    ensures Decode(code, a) == Commit(a + offset)
  {
    JumpDecodes(code, a, ICommit, 0, offset);
    ExecSame(code, s, a, i, st);
  }

  lemma AtPartialCommit(code: Code, s: seq<Byte>, a: nat, offset: int, i: nat, st: Stack)
    requires CodeAt(code, a, Jump(IPartialCommit, 0, offset)) && i <= |s| && st.Push? && st.s.At?
    ensures Same(code, s, Run(a, i, st), Run(a + offset, i, Push(st.p, At(i), st.rest)))
  {
    JumpDecodes(code, a, IPartialCommit, 0, offset);
    ExecSame(code, s, a, i, st);
  }

  lemma AtBackCommit(code: Code, s: seq<Byte>, a: nat, offset: int, i: nat, st: Stack)
    requires CodeAt(code, a, Jump(IBackCommit, 0, offset)) && i <= |s| && st.Push? && st.s.At?
    ensures Same(code, s, Run(a, i, st), Run(a + offset, st.s.pos, st.rest))
  {
    JumpDecodes(code, a, IBackCommit, 0, offset);
    ExecSame(code, s, a, i, st);
  }

  lemma AtFail(code: Code, s: seq<Byte>, a: nat, i: nat, st: Stack)
    requires CodeAt(code, a, [Inst(IFail, 0)]) && i <= |s|
    ensures Same(code, s, Run(a, i, st), Backtrack(st))
  {
    CodeAtIndex(code, a, [Inst(IFail, 0)], 0);
    ExecSame(code, s, a, i, st);
  }

  lemma AtFailTwice(code: Code, s: seq<Byte>, a: nat, i: nat, st: Stack)
    requires CodeAt(code, a, [Inst(IFailTwice, 0)]) && i <= |s| && st.Push?
    ensures Same(code, s, Run(a, i, st), Backtrack(st.rest))
  {
    CodeAtIndex(code, a, [Inst(IFailTwice, 0)], 0);
    ExecSame(code, s, a, i, st);
  }

  lemma AtBehind(code: Code, s: seq<Byte>, a: nat, n: nat, i: nat, st: Stack)
    requires CodeAt(code, a, [Inst(IBehind, n)]) && i <= |s|
    ensures Same(code, s, Run(a, i, st), if n > i then Backtrack(st) else Run(a + 1, i - n, st))
  {
    CodeAtIndex(code, a, [Inst(IBehind, n)], 0);
    ExecSame(code, s, a, i, st);
  }

  lemma AtAny(code: Code, s: seq<Byte>, a: nat, i: nat, st: Stack)
    requires CodeAt(code, a, [Inst(IAny, 0)]) && i <= |s|
    ensures Same(code, s, Run(a, i, st), After(Peg(TAny, s, i), a + 1, st))
  {
    CodeAtIndex(code, a, [Inst(IAny, 0)], 0);
    ExecSame(code, s, a, i, st);
  }

  lemma AtSpan(code: Code, s: seq<Byte>, a: nat, cs: Charset, i: nat, st: Stack)
    requires CodeAt(code, a, [Inst(ISpan, 0)] + CharsetSlots(cs)) && i <= |s|
    ensures Same(code, s, Run(a, i, st), Run(a + CHARSETINSTSIZE, SpanEnd(cs, s, i), st))
  {
    CodeAtSplit(code, a, [Inst(ISpan, 0)], CharsetSlots(cs));
    CodeAtIndex(code, a, [Inst(ISpan, 0)], 0);
    CharsetRoundTrip(code, a + 1, cs);
    ExecSame(code, s, a, i, st);
  }

  lemma AtSet(code: Code, s: seq<Byte>, a: nat, cs: Charset, i: nat, st: Stack)
    requires CodeAt(code, a, [Inst(ISet, 0)] + CharsetSlots(cs)) && i <= |s|
    ensures Same(code, s, Run(a, i, st), After(Peg(TSet(cs), s, i), a + CHARSETINSTSIZE, st))
  {
    CodeAtSplit(code, a, [Inst(ISet, 0)], CharsetSlots(cs));
    CodeAtIndex(code, a, [Inst(ISet, 0)], 0);
    CharsetRoundTrip(code, a + 1, cs);
    ExecSame(code, s, a, i, st);
  }

  lemma AtTestSet(code: Code, s: seq<Byte>, a: nat, cs: Charset, offset: int, i: nat, st: Stack)
    requires CodeAt(code, a, Jump(ITestSet, 0, offset) + CharsetSlots(cs)) && i <= |s|
    ensures Same(code, s, Run(a, i, st),
                 Run(if i < |s| && s[i] in cs then a + 1 + CHARSETINSTSIZE else a + offset, i, st))
  {
    CodeAtSplit(code, a, Jump(ITestSet, 0, offset), CharsetSlots(cs));
    CodeAtIndex(code, a, Jump(ITestSet, 0, offset), 0);
    CodeAtIndex(code, a, Jump(ITestSet, 0, offset), 1);
    CharsetRoundTrip(code, a + 2, cs);
    ExecSame(code, s, a, i, st);
  }

  /** A test instruction passes control to the next instruction when the next byte is in the set,
      and otherwise to its label. */
  lemma TestCorrect(code: Code, s: seq<Byte>, a: nat, cs: Charset, offset: int, i: nat, st: Stack)
    requires CodeAt(code, a, CodeTestSet(cs, false, offset)) && i <= |s|
    ensures Same(code, s, Run(a, i, st),
                 Run(if i < |s| && s[i] in cs then a + TestSize(cs, false) else a + offset, i, st))
    ensures i < |s| && s[i] in cs ==> TestHolds(TestDominator(cs, false), s, i)
  {
    match CharsetType(cs)
    case EmptyKind => AtJump(code, s, a, offset, i, st);
    case AnyKind =>
      JumpDecodes(code, a, ITestAny, 0, offset);
      ExecSame(code, s, a, i, st);
    case CharKind(c) =>
      JumpDecodes(code, a, ITestChar, c, offset);
      ExecSame(code, s, a, i, st);
    case SetKind => AtTestSet(code, s, a, cs, offset, i, st);
  }

  lemma CharCorrect(code: Code, s: seq<Byte>, a: nat, c: Byte, tt: Dominator, i: nat, st: Stack)
    requires CodeAt(code, a, CodeChar(c, tt)) && i <= |s| && TestHolds(tt, s, i)
    ensures Same(code, s, Run(a, i, st), After(Peg(TChar(c), s, i), a + 1, st))
  {
    CodeAtIndex(code, a, CodeChar(c, tt), 0);
    ExecSame(code, s, a, i, st);
  }

  lemma CharsetCorrect(code: Code, s: seq<Byte>, a: nat, cs: Charset, tt: Dominator, i: nat, st: Stack)
    requires CodeAt(code, a, CodeCharset(cs, tt)) && i <= |s| && TestHolds(tt, s, i)
    ensures Same(code, s, Run(a, i, st), After(Peg(TSet(cs), s, i), a + |CodeCharset(cs, tt)|, st))
  {
    match CharsetType(cs)
    case CharKind(c) => CharCorrect(code, s, a, c, tt, i, st);
    case SetKind =>
      if tt == OnSet(cs) {
        AtAny(code, s, a, i, st);
      } else {
        AtSet(code, s, a, cs, i, st);
      }
    case EmptyKind => AtFail(code, s, a, i, st);
    case AnyKind => AtAny(code, s, a, i, st);
  }

  /** Main statement: running the segment amounts to what the tree means. */
  lemma {:induction false} Correct(p: Tree, opt: bool, tt: Dominator, fl: Charset,
                                   code: Code, s: seq<Byte>, a: nat, i: nat, st: Stack)
    requires Wf(p) && CodeAt(code, a, Gen(p, opt, tt, fl)) && i <= |s|
    requires TestHolds(tt, s, i)
    requires FollowOk(code, s, a + |Gen(p, opt, tt, fl)|, fl, st, p, i)
    requires opt ==> fl == FullSet && OptOk(code, a + |Gen(p, opt, tt, fl)|, st)
    ensures Same(code, s, Run(a, i, st), After(Peg(p, s, i), a + |Gen(p, opt, tt, fl)|, st))
    decreases p, |s| - i, 2
  {
    hide CodeAt, Decode, Step, Gives, GenChoice, GenRep, GenNot, GenAnd, CodeCharset, FixedLen;
    match p
    case TChar(c) => CharCorrect(code, s, a, c, tt, i, st);
    case TSet(cs) => CharsetCorrect(code, s, a, cs, tt, i, st);
    case TAny => AtAny(code, s, a, i, st);
    case TTrue =>
    case TFalse => AtFail(code, s, a, i, st);
    case TChoice(_, _) => ChoiceCorrect(p, opt, fl, code, s, a, i, st);
    case TRep(_) => RepCorrect(p, opt, fl, code, s, a, i, st);
    case TNot(_) => NotCorrect(p, code, s, a, i, st);
    case TAnd(_) => AndCorrect(p, tt, code, s, a, i, st);
    case TBehind(q, n) => BehindCorrect(p, code, s, a, i, st);
    case TSeq(q1, q2) => SeqCorrect(p, opt, tt, fl, code, s, a, i, st);
  }

  lemma SeqLayout(p: Tree, opt: bool, tt: Dominator, fl: Charset, code: Code, a: nat)
    returns (fl1: Charset, tt2: Dominator, g1: seq<Slot>, g2: seq<Slot>)
    requires p.TSeq? && CodeAt(code, a, Gen(p, opt, tt, fl))
    ensures fl1 == (if NeedFollow(p.p1) then First(p.p2, fl) else FullSet)
    ensures tt2 == (if FixedLen(p.p1) != 0 then NoTest else tt)
    ensures g1 == Gen(p.p1, false, tt, fl1) && g2 == Gen(p.p2, opt, tt2, fl)
    ensures CodeAt(code, a, g1) && CodeAt(code, a + |g1|, g2)
    ensures |Gen(p, opt, tt, fl)| == |g1| + |g2|
  {
    hide CodeAt;
    fl1 := if NeedFollow(p.p1) then First(p.p2, fl) else FullSet;
    tt2 := if FixedLen(p.p1) != 0 then NoTest else tt;
    g1 := Gen(p.p1, false, tt, fl1);
    g2 := Gen(p.p2, opt, tt2, fl);
    CodeAtSplit(code, a, g1, g2);
  }

  /** Before a byte that cannot start `q2` in its context, `q2` and what follows it fail. */
  lemma {:induction false} SecondFails(p: Tree, opt: bool, tt: Dominator, fl: Charset,
                                       code: Code, s: seq<Byte>, m: nat, b: nat, i: nat, j: nat, st: Stack)
    requires p.TSeq? && Wf(p) && i <= j < |s| && CanEnd(p.p1, i, j)
    requires TestHolds(tt, s, j) && CodeAt(code, m, Gen(p.p2, opt, tt, fl)) && b == m + |Gen(p.p2, opt, tt, fl)|
    requires FollowOk(code, s, b, fl, st, p, i) && s[j] !in First(p.p2, fl)
    requires opt ==> fl == FullSet && OptOk(code, b, st)
    ensures Same(code, s, Run(m, j, st), Backtrack(st))
    decreases p, |s| - i, 0
  {
    hide CodeAt, Gen, Step, Decode, Gives, First, TestHolds;
    var q2 := p.p2;
    SeqEnds(p, i, j);
    Correct(q2, opt, tt, fl, code, s, m, j, st);
    if Peg(q2, s, j).Ok? {
      if FixedLen(q2) >= 0 { FixedLenExact(q2, s, j); }
      if Peg(q2, s, j).pos > j || s[j] in fl { FirstSound(q2, fl, s, j); }
    }
  }

  lemma SeqEnds(p: Tree, i: nat, j: nat)
    requires p.TSeq? && CanEnd(p.p1, i, j)
    ensures forall k: nat | CanEnd(p.p2, j, k) :: CanEnd(p, i, k)
  {
  }

  lemma {:induction false} SeqCorrect(p: Tree, opt: bool, tt: Dominator, fl: Charset,
                                      code: Code, s: seq<Byte>, a: nat, i: nat, st: Stack)
    requires p.TSeq? && Wf(p) && CodeAt(code, a, Gen(p, opt, tt, fl)) && i <= |s|
    requires TestHolds(tt, s, i)
    requires FollowOk(code, s, a + |Gen(p, opt, tt, fl)|, fl, st, p, i)
    requires opt ==> fl == FullSet && OptOk(code, a + |Gen(p, opt, tt, fl)|, st)
    ensures Same(code, s, Run(a, i, st), After(Peg(p, s, i), a + |Gen(p, opt, tt, fl)|, st))
    decreases p, |s| - i, 1
  {
    hide CodeAt, Gen, First, Step, Decode, Gives, NeedFollow, TestHolds, FixedLen;
    var q1, q2 := p.p1, p.p2;
    var fl1, tt2, g1, g2 := SeqLayout(p, opt, tt, fl, code, a);
    var m := a + |g1|;
    var b := a + |Gen(p, opt, tt, fl)|;
    TestCarries(p, tt, tt2, s, i);
    forall j: nat | CanEnd(q1, i, j) && j < |s| && s[j] !in fl1
      ensures Same(code, s, Run(m, j, st), Backtrack(st))
    {
      SecondFails(p, opt, tt2, fl, code, s, m, b, i, j, st);
    }
    Correct(q1, false, tt, fl1, code, s, a, i, st);
    if Peg(q1, s, i).Ok? {
      var j := Peg(q1, s, i).pos;
      if FixedLen(q1) >= 0 { FixedLenExact(q1, s, i); }
      SeqEnds(p, i, j);
      Correct(q2, opt, tt2, fl, code, s, m, j, st);
    }
  }

  /** A test still protects the second part when the first consumes nothing. */
  lemma TestCarries(p: Tree, tt: Dominator, tt2: Dominator, s: seq<Byte>, i: nat)
    requires p.TSeq? && TestHolds(tt, s, i)
    requires tt2 == if FixedLen(p.p1) != 0 then NoTest else tt
    ensures forall j: nat | CanEnd(p.p1, i, j) :: TestHolds(tt2, s, j)
  {
  }

  lemma BehindLayout(p: Tree, code: Code, a: nat) returns (k: nat, c: seq<Slot>)
    requires p.TBehind? && CodeAt(code, a, Gen(p, false, NoTest, FullSet))
    ensures c == Gen(p.body, false, NoTest, FullSet) && k == (if p.back > 0 then 1 else 0)
    ensures p.back > 0 ==> CodeAt(code, a, [Inst(IBehind, p.back)])
    ensures CodeAt(code, a + k, c)
    ensures |Gen(p, false, NoTest, FullSet)| == k + |c|
  {
    hide CodeAt;
    c := Gen(p.body, false, NoTest, FullSet);
    var pre := if p.back > 0 then [Inst(IBehind, p.back)] else [];
    k := |pre|;
    CodeAtSplit(code, a, pre, c);
  }

  lemma {:induction false} BehindCorrect(p: Tree, code: Code, s: seq<Byte>, a: nat, i: nat, st: Stack)
    requires p.TBehind? && Wf(p) && CodeAt(code, a, Gen(p, false, NoTest, FullSet)) && i <= |s|
    ensures Same(code, s, Run(a, i, st), After(Peg(p, s, i), a + |Gen(p, false, NoTest, FullSet)|, st))
    decreases p, |s| - i, 0
  {
    hide CodeAt, Gen, Decode, Step, Gives, FixedLen;
    var q, n := p.body, p.back;
    var k, c := BehindLayout(p, code, a);
    if n > 0 { AtBehind(code, s, a, n, i, st); }
    if n <= i {
      var j: nat := i - n;
      Correct(q, false, NoTest, FullSet, code, s, a + k, j, st);
      if Peg(q, s, j).Ok? { FixedLenExact(q, s, j); }
    }
  }

  lemma AndLayout(p: Tree, tt: Dominator, code: Code, a: nat) returns (c: seq<Slot>)
    requires p.TAnd? && CodeAt(code, a, GenAnd(p, tt))
    ensures c == Gen(p.body, false, tt, FullSet)
    ensures var n := FixedLen(p.body);
      if 0 <= n <= MAXBEHIND then
        && CodeAt(code, a, c)
        && (n > 0 ==> CodeAt(code, a + |c|, [Inst(IBehind, n)]))
        && |GenAnd(p, tt)| == |c| + (if n > 0 then 1 else 0)
      else
        && CodeAt(code, a, Jump(IChoice, 0, 2 + |c| + 2))
        && CodeAt(code, a + 2, c)
        && CodeAt(code, a + 2 + |c|, Jump(IBackCommit, 0, 3))
        && CodeAt(code, a + 2 + |c| + 2, [Inst(IFail, 0)])
        && |GenAnd(p, tt)| == 2 + |c| + 2 + 1
  {
    hide CodeAt, Gen, GenAnd, FixedLen;
    var n := FixedLen(p.body);
    c := Gen(p.body, false, tt, FullSet);
    AndCode(p, tt);
    if 0 <= n <= MAXBEHIND {
      CodeAtSplit(code, a, c, if n > 0 then [Inst(IBehind, n)] else []);
    } else {
      FourPieces(code, a, Jump(IChoice, 0, 2 + |c| + 2), c, Jump(IBackCommit, 0, 3), [Inst(IFail, 0)]);
    }
  }

  lemma AndCode(p: Tree, tt: Dominator)
    requires p.TAnd?
    ensures var n, c := FixedLen(p.body), Gen(p.body, false, tt, FullSet);
      GenAnd(p, tt) == if 0 <= n <= MAXBEHIND then c + (if n > 0 then [Inst(IBehind, n)] else [])
                       else Jump(IChoice, 0, 2 + |c| + 2) + c + Jump(IBackCommit, 0, 3) + [Inst(IFail, 0)]
  {
    hide Gen, FixedLen;
  }

  lemma {:induction false} AndCorrect(p: Tree, tt: Dominator, code: Code, s: seq<Byte>, a: nat, i: nat, st: Stack)
    requires p.TAnd? && Wf(p) && CodeAt(code, a, GenAnd(p, tt)) && i <= |s|
    requires TestHolds(tt, s, i)
    ensures Same(code, s, Run(a, i, st), After(Peg(p, s, i), a + |GenAnd(p, tt)|, st))
    decreases p, |s| - i, 0
  {
    hide CodeAt, Gen, Step, Decode, Gives, GenAnd, FixedLen;
    var q := p.body;
    var n := FixedLen(q);
    var c := AndLayout(p, tt, code, a);
    if 0 <= n <= MAXBEHIND {
      Correct(q, false, tt, FullSet, code, s, a, i, st);
      if Peg(q, s, i).Ok? {
        FixedLenExact(q, s, i);
        if n > 0 { AtBehind(code, s, a + |c|, n, i + n, st); }
      }
    } else {
      var st' := Push(a + 2 + |c| + 2, At(i), st);
      AtChoice(code, s, a, 2 + |c| + 2, i, st);
      Correct(q, false, tt, FullSet, code, s, a + 2, i, st');
      if Peg(q, s, i).Ok? {
        AtBackCommit(code, s, a + 2 + |c|, 3, Peg(q, s, i).pos, st');
      } else {
        AtFail(code, s, a + 2 + |c| + 2, i, st);
      }
    }
  }

  /** What a test on the first set tells when it is allowed. */
  lemma TestMeaning(p: Tree, s: seq<Byte>, i: nat)
    requires Wf(p) && i <= |s|
    requires !(i < |s| && s[i] in First(p, FullSet)) && !AcceptsEmpty(p)
    ensures Peg(p, s, i).Fail?
  {
    if i == |s| {
      FailsAtEnd(p, s);
    } else if Peg(p, s, i).Ok? {
      FirstSound(p, FullSet, s, i);
    }
  }

  lemma NotLayout(p: Tree, code: Code, a: nat) returns (t: nat, c: seq<Slot>)
    requires p.TNot? && CodeAt(code, a, GenNot(p))
    ensures c == Gen(p.body, false, NoTest, FullSet)
    ensures var (cs, e) := GetFirst(p.body, FullSet);
      && t == TestSize(cs, e)
      && if HeadFail(p.body) then
           && CodeAt(code, a, CodeTestSet(cs, e, t + 1))
           && CodeAt(code, a + t, [Inst(IFail, 0)])
           && |GenNot(p)| == t + 1
         else
           && CodeAt(code, a, CodeTestSet(cs, e, t + 2 + |c| + 1))
           && CodeAt(code, a + t, Jump(IChoice, 0, 2 + |c| + 1))
           && CodeAt(code, a + t + 2, c)
           && CodeAt(code, a + t + 2 + |c|, [Inst(IFailTwice, 0)])
           && |GenNot(p)| == t + 2 + |c| + 1
  {
    hide CodeAt, Gen, HeadFail, GetFirst, CharsetType, CodeTestSet;
    var (cs, e) := GetFirst(p.body, FullSet);
    c := Gen(p.body, false, NoTest, FullSet);
    t := TestSize(cs, e);
    if HeadFail(p.body) {
      CodeAtSplit(code, a, CodeTestSet(cs, e, t + 1), [Inst(IFail, 0)]);
    } else {
      var test := CodeTestSet(cs, e, t + 2 + |c| + 1);
      var choice := Jump(IChoice, 0, 2 + |c| + 1);
      CodeAtSplit(code, a, test + choice + c, [Inst(IFailTwice, 0)]);
      CodeAtSplit(code, a, test + choice, c);
      CodeAtSplit(code, a, test, choice);
    }
  }

  lemma {:induction false} NotCorrect(p: Tree, code: Code, s: seq<Byte>, a: nat, i: nat, st: Stack)
    requires p.TNot? && Wf(p) && CodeAt(code, a, GenNot(p)) && i <= |s|
    ensures Same(code, s, Run(a, i, st), After(Peg(p, s, i), a + |GenNot(p)|, st))
    decreases p, |s| - i, 0
  {
    hide CodeAt, Gen, CodeTestSet, CharsetType, GetFirst, Step, Decode, Gives, GenNot;
    var q := p.body;
    var (cs, e) := GetFirst(q, FullSet);
    var t, c := NotLayout(p, code, a);
    if HeadFail(q) {
      HeadFailSound(q);
      TestCorrect(code, s, a, cs, t + 1, i, st);
      AtFail(code, s, a + t, i, st);
      HeadFailExact(q, s, i);
    } else {
      if !e { TestCorrect(code, s, a, cs, t + 2 + |c| + 1, i, st); }
      if !e && !(i < |s| && s[i] in cs) {
        TestMeaning(q, s, i);
      } else {
        var st' := Push(a + t + 2 + |c| + 1, At(i), st);
        AtChoice(code, s, a + t, 2 + |c| + 1, i, st);
        Correct(q, false, NoTest, FullSet, code, s, a + t + 2, i, st');
        if Peg(q, s, i).Ok? {
          AtFailTwice(code, s, a + t + 2 + |c|, Peg(q, s, i).pos, st');
        }
      }
    }
  }

  lemma {:induction false} ChoiceCorrect(p: Tree, opt: bool, fl: Charset,
                                         code: Code, s: seq<Byte>, a: nat, i: nat, st: Stack)
    requires p.TChoice? && Wf(p) && CodeAt(code, a, GenChoice(p, opt, fl)) && i <= |s|
    requires FollowOk(code, s, a + |GenChoice(p, opt, fl)|, fl, st, p, i)
    requires opt ==> fl == FullSet && OptOk(code, a + |GenChoice(p, opt, fl)|, st)
    ensures Same(code, s, Run(a, i, st), After(Peg(p, s, i), a + |GenChoice(p, opt, fl)|, st))
    decreases p, |s| - i, 1
  {
    hide CodeAt, Gen, GenChoice, Exclusive, Step, Gives, Decode, GetFirst, HeadFail;
    if Exclusive(p.p1, p.p2, fl) {
      ExclusiveChoiceCorrect(p, opt, fl, code, s, a, i, st);
    } else if opt && p.p2.TTrue? {
      ReusedChoiceCorrect(p, fl, code, s, a, i, st);
    } else {
      FullChoiceCorrect(p, opt, fl, code, s, a, i, st);
    }
  }

  lemma ExclusiveChoiceLayout(p: Tree, opt: bool, fl: Charset, code: Code, a: nat)
    returns (t: nat, c1: seq<Slot>, c2: seq<Slot>, jmp: nat)
    requires p.TChoice? && CodeAt(code, a, GenChoice(p, opt, fl))
    requires Exclusive(p.p1, p.p2, fl)
    ensures var cs1 := First(p.p1, FullSet);
      && c1 == Gen(p.p1, false, TestDominator(cs1, false), fl)
      && c2 == Gen(p.p2, opt, NoTest, fl)
      && t == TestSize(cs1, false)
      && CodeAt(code, a, CodeTestSet(cs1, false, t + |c1| + jmp))
    ensures CodeAt(code, a + t, c1)
    ensures if p.p2.TTrue? then jmp == 0 && |c2| == 0
            else jmp == 2 && CodeAt(code, a + t + |c1|, Jump(IJmp, 0, 2 + |c2|))
    ensures CodeAt(code, a + t + |c1| + jmp, c2)
    ensures |GenChoice(p, opt, fl)| == t + |c1| + jmp + |c2|
  {
    hide CodeAt, Gen, HeadFail, GetFirst, CharsetType, CodeTestSet;
    NoCode(opt, fl);
    var cs1 := First(p.p1, FullSet);
    c1 := Gen(p.p1, false, TestDominator(cs1, false), fl);
    c2 := Gen(p.p2, opt, NoTest, fl);
    var j := if p.p2.TTrue? then [] else Jump(IJmp, 0, 2 + |c2|);
    jmp := |j|;
    t := TestSize(cs1, false);
    var test := CodeTestSet(cs1, false, t + |c1| + |j|);
    assert GenChoice(p, opt, fl) == test + c1 + j + c2;
    FourPieces(code, a, test, c1, j, c2);
  }

  /** test -> L1; <p1>; jmp L2; L1: <p2>; L2: */
  lemma {:induction false} ExclusiveChoiceCorrect(p: Tree, opt: bool, fl: Charset,
                                                  code: Code, s: seq<Byte>, a: nat, i: nat, st: Stack)
    requires p.TChoice? && Wf(p) && CodeAt(code, a, GenChoice(p, opt, fl)) && i <= |s|
    requires FollowOk(code, s, a + |GenChoice(p, opt, fl)|, fl, st, p, i)
    requires opt ==> fl == FullSet && OptOk(code, a + |GenChoice(p, opt, fl)|, st)
    requires Exclusive(p.p1, p.p2, fl)
    ensures Same(code, s, Run(a, i, st), After(Peg(p, s, i), a + |GenChoice(p, opt, fl)|, st))
    decreases p, |s| - i, 0
  {
    hide CodeAt, Gen, CodeTestSet, CharsetType, GetFirst, Step, Decode, Gives, GenChoice;
    var p1, p2 := p.p1, p.p2;
    var cs1 := First(p1, FullSet);
    var t, c1, c2, jmp := ExclusiveChoiceLayout(p, opt, fl, code, a);
    var m := a + t + |c1|;
    var b := m + jmp + |c2|;
    if HeadFail(p1) { HeadFailSound(p1); }
    TestCorrect(code, s, a, cs1, t + |c1| + jmp, i, st);
    if i < |s| && s[i] in cs1 {
      forall j: nat | j <= |s| ensures Same(code, s, Run(m, j, st), Run(b, j, st)) {
        if !p2.TTrue? { AtJump(code, s, m, 2 + |c2|, j, st); }
      }
      Correct(p1, false, TestDominator(cs1, false), fl, code, s, a + t, i, st);
      if Peg(p1, s, i).Fail? { ExclusiveMeaning(p, fl, s, i); }
    } else {
      TestMeaning(p1, s, i);
      Correct(p2, opt, NoTest, fl, code, s, m + jmp, i, st);
    }
  }

  /** Past the test of an exclusive choice, a failing first alternative leaves nothing to lose: the
      second fails too, or stays here before a byte that cannot follow. */
  lemma ExclusiveMeaning(p: Tree, fl: Charset, s: seq<Byte>, i: nat)
    requires p.TChoice? && Wf(p) && Exclusive(p.p1, p.p2, fl)
    requires i < |s| && s[i] in First(p.p1, FullSet) && Peg(p.p1, s, i).Fail?
    ensures Peg(p, s, i).Fail? || (Peg(p, s, i) == Ok(i) && s[i] !in fl && CanEnd(p, i, i))
  {
    if HeadFail(p.p1) { HeadFailSound(p.p1); }
    if Peg(p.p2, s, i).Ok? {
      if Peg(p.p2, s, i).pos > i || s[i] in fl { FirstSound(p.p2, fl, s, i); }
      if FixedLen(p) >= 0 { FixedLenExact(p.p2, s, i); }
    }
  }

  /** partialcommit; <p1>, over the choice entry already in place */
  lemma {:induction false} ReusedChoiceCorrect(p: Tree, fl: Charset,
                                               code: Code, s: seq<Byte>, a: nat, i: nat, st: Stack)
    requires p.TChoice? && Wf(p) && CodeAt(code, a, GenChoice(p, true, fl)) && i <= |s|
    requires OptOk(code, a + |GenChoice(p, true, fl)|, st)
    requires !Exclusive(p.p1, p.p2, fl) && p.p2.TTrue?
    ensures Same(code, s, Run(a, i, st), After(Peg(p, s, i), a + |GenChoice(p, true, fl)|, st))
    decreases p, |s| - i, 0
  {
    hide CodeAt, Decode, Exclusive, Step, Gives, Gen, GetFirst;
    var c := Gen(p.p1, true, NoTest, FullSet);
    CodeAtSplit(code, a, Jump(IPartialCommit, 0, 2), c);
    var st' := Push(st.p, At(i), st.rest);
    var b := a + 2 + |c|;
    AtPartialCommit(code, s, a, 2, i, st);
    Correct(p.p1, true, NoTest, FullSet, code, s, a + 2, i, st');
    assert b == a + |GenChoice(p, true, fl)|;
    assert Peg(p.p2, s, i) == Ok(i);
    CommitSame(code, s, b, Peg(p, s, i).pos, st);
    CommitSame(code, s, b, Peg(p, s, i).pos, st');
  }

  /** The commit after an `opt` segment resumes where failing would. */
  lemma CommitSame(code: Code, s: seq<Byte>, b: nat, j: nat, st: Stack)
    requires OptOk(code, b, st) && j <= |s|
    ensures Same(code, s, Run(b, j, st), Run(st.p, j, st.rest))
  {
    ExecSame(code, s, b, j, st);
  }

  lemma FullChoiceLayout(p: Tree, opt: bool, fl: Charset, code: Code, a: nat)
    returns (t: nat, c1: seq<Slot>, c2: seq<Slot>)
    requires p.TChoice? && CodeAt(code, a, GenChoice(p, opt, fl))
    requires !Exclusive(p.p1, p.p2, fl) && !(opt && p.p2.TTrue?)
    ensures var (cs1, e1) := GetFirst(p.p1, FullSet);
      && c1 == Gen(p.p1, p.p2.TTrue?, TestDominator(cs1, e1), FullSet)
      && c2 == Gen(p.p2, opt, NoTest, fl)
      && t == TestSize(cs1, e1)
      && CodeAt(code, a, CodeTestSet(cs1, e1, t + 2 + |c1| + 2))
    ensures CodeAt(code, a + t, Jump(IChoice, 0, 2 + |c1| + 2))
    ensures CodeAt(code, a + t + 2, c1)
    ensures CodeAt(code, a + t + 2 + |c1|, Jump(ICommit, 0, 2 + |c2|))
    ensures CodeAt(code, a + t + 2 + |c1| + 2, c2)
    ensures |GenChoice(p, opt, fl)| == t + 2 + |c1| + 2 + |c2|
    ensures p.p2.TTrue? ==> |c2| == 0
  {
    hide CodeAt, Gen, HeadFail, GetFirst, CharsetType, CodeTestSet;
    NoCode(opt, fl);
    var (cs1, e1) := GetFirst(p.p1, FullSet);
    c1 := Gen(p.p1, p.p2.TTrue?, TestDominator(cs1, e1), FullSet);
    c2 := Gen(p.p2, opt, NoTest, fl);
    t := TestSize(cs1, e1);
    var test := CodeTestSet(cs1, e1, t + 2 + |c1| + 2);
    var choice, commit := Jump(IChoice, 0, 2 + |c1| + 2), Jump(ICommit, 0, 2 + |c2|);
    assert GenChoice(p, opt, fl) == test + choice + c1 + commit + c2;
    FivePieces(code, a, test, choice, c1, commit, c2);
  }

  lemma NoCode(opt: bool, fl: Charset)
    ensures Gen(TTrue, opt, NoTest, fl) == []
  {
  }

  lemma FourPieces(code: Code, a: nat, c0: seq<Slot>, c1: seq<Slot>, c2: seq<Slot>, c3: seq<Slot>)
    requires CodeAt(code, a, c0 + c1 + c2 + c3)
    ensures CodeAt(code, a, c0) && CodeAt(code, a + |c0|, c1) && CodeAt(code, a + |c0| + |c1|, c2)
    ensures CodeAt(code, a + |c0| + |c1| + |c2|, c3)
  {
    hide CodeAt;
    CodeAtSplit(code, a, c0 + c1 + c2, c3);
    CodeAtSplit(code, a, c0 + c1, c2);
    CodeAtSplit(code, a, c0, c1);
  }

  lemma FivePieces(code: Code, a: nat, c0: seq<Slot>, c1: seq<Slot>, c2: seq<Slot>, c3: seq<Slot>, c4: seq<Slot>)
    requires CodeAt(code, a, c0 + c1 + c2 + c3 + c4)
    ensures CodeAt(code, a, c0) && CodeAt(code, a + |c0|, c1) && CodeAt(code, a + |c0| + |c1|, c2)
    ensures CodeAt(code, a + |c0| + |c1| + |c2|, c3) && CodeAt(code, a + |c0| + |c1| + |c2| + |c3|, c4)
  {
    hide CodeAt;
    CodeAtSplit(code, a, c0 + c1 + c2 + c3, c4);
    CodeAtSplit(code, a, c0 + c1 + c2, c3);
    CodeAtSplit(code, a, c0 + c1, c2);
    CodeAtSplit(code, a, c0, c1);
  }

  lemma {:induction false} FullChoiceCorrect(p: Tree, opt: bool, fl: Charset,
                                             code: Code, s: seq<Byte>, a: nat, i: nat, st: Stack)
    requires p.TChoice? && Wf(p) && CodeAt(code, a, GenChoice(p, opt, fl)) && i <= |s|
    requires FollowOk(code, s, a + |GenChoice(p, opt, fl)|, fl, st, p, i)
    requires opt ==> fl == FullSet && OptOk(code, a + |GenChoice(p, opt, fl)|, st)
    requires !Exclusive(p.p1, p.p2, fl) && !(opt && p.p2.TTrue?)
    ensures Same(code, s, Run(a, i, st), After(Peg(p, s, i), a + |GenChoice(p, opt, fl)|, st))
    decreases p, |s| - i, 0
  {
    hide CodeAt, Gen, CodeTestSet, CharsetType, GetFirst, Step, Decode, Gives, GenChoice, Exclusive;
    var p1, p2 := p.p1, p.p2;
    var (cs1, e1) := GetFirst(p1, FullSet);
    var t, c1, c2 := FullChoiceLayout(p, opt, fl, code, a);
    var l1 := a + t + 2 + |c1| + 2;
    Correct(p2, opt, NoTest, fl, code, s, l1, i, st);
    if !e1 { TestCorrect(code, s, a, cs1, t + 2 + |c1| + 2, i, st); }
    if !e1 && !(i < |s| && s[i] in cs1) {
      TestMeaning(p1, s, i);
    } else {
      var st' := Push(l1, At(i), st);
      AtCommit(code, s, a + t + 2 + |c1|, 2 + |c2|, i, st');
      Correct(p1, p2.TTrue?, TestDominator(cs1, e1), FullSet, code, s, a + t + 2, i, st');
      GuardedRun(code, s, a + t, |c1|, |c2|, i, st, Peg(p1, s, i));
    }
  }

  /** A choice entry around a first alternative: taken back when it fails, given up when it matches. */
  lemma GuardedRun(code: Code, s: seq<Byte>, a: nat, n1: nat, n2: nat, i: nat, st: Stack, r: Res)
    requires i <= |s| && CodeAt(code, a, Jump(IChoice, 0, 2 + n1 + 2))
             && CodeAt(code, a + 2 + n1, Jump(ICommit, 0, 2 + n2))
    requires r.Ok? ==> r.pos <= |s|
    requires var l1 := a + 2 + n1 + 2; var st' := Push(l1, At(i), st);
             Same(code, s, Run(a + 2, i, st'), After(r, a + 2 + n1, st'))
    ensures var l1 := a + 2 + n1 + 2;
            Same(code, s, Run(a, i, st), if r.Ok? then Run(l1 + n2, r.pos, st) else Run(l1, i, st))
  {
    hide CodeAt, Step, Decode, Gives;
    var st' := Push(a + 2 + n1 + 2, At(i), st);
    AtChoice(code, s, a, 2 + n1 + 2, i, st);
    if r.Ok? { AtCommit(code, s, a + 2 + n1, 2 + n2, r.pos, st'); }
  }

  lemma {:induction false} RepCorrect(p: Tree, opt: bool, fl: Charset,
                                      code: Code, s: seq<Byte>, a: nat, i: nat, st: Stack)
    requires p.TRep? && Wf(p) && CodeAt(code, a, GenRep(p, opt, fl)) && i <= |s|
    requires FollowOk(code, s, a + |GenRep(p, opt, fl)|, fl, st, p, i)
    requires opt ==> fl == FullSet && OptOk(code, a + |GenRep(p, opt, fl)|, st)
    ensures Same(code, s, Run(a, i, st), After(Peg(p, s, i), a + |GenRep(p, opt, fl)|, st))
    decreases p, |s| - i, 1
  {
    var q := p.body;
    var (cs, e) := GetFirst(q, FullSet);
    if ToCharset(q).0 {
      var set1 := ToCharset(q).1;
      AtSpan(code, s, a, set1, i, st);
      SpanIsRep(p, s, i);
    } else if HeadFail(q) || (!e && cs !! fl) {
      TestLoopCorrect(p, opt, fl, code, s, a, i, st);
    } else {
      FullLoopCorrect(p, opt, fl, code, s, a, i, st);
    }
  }

  lemma {:induction false} SpanIsRep(p: Tree, s: seq<Byte>, i: nat)
    requires p.TRep? && ToCharset(p.body).0 && i <= |s|
    ensures Peg(p, s, i) == Ok(SpanEnd(ToCharset(p.body).1, s, i))
    decreases |s| - i
  {
    if i < |s| && s[i] in ToCharset(p.body).1 { SpanIsRep(p, s, i + 1); }
  }

  lemma TestLoopLayout(p: Tree, opt: bool, fl: Charset, code: Code, a: nat) returns (t: nat, c: seq<Slot>)
    requires p.TRep? && CodeAt(code, a, GenRep(p, opt, fl)) && !ToCharset(p.body).0
    requires HeadFail(p.body) || (!AcceptsEmpty(p.body) && First(p.body, FullSet) !! fl)
    ensures var cs := First(p.body, FullSet);
      && c == Gen(p.body, false, TestDominator(cs, false), FullSet)
      && t == TestSize(cs, false)
      && CodeAt(code, a, CodeTestSet(cs, false, t + |c| + 2))
    ensures CodeAt(code, a + t, c)
    ensures CodeAt(code, a + t + |c|, Jump(IJmp, 0, -(t + |c|)))
    ensures |GenRep(p, opt, fl)| == t + |c| + 2
  {
    hide CodeAt, Gen, HeadFail, GetFirst, CharsetType, CodeTestSet;
    var cs := First(p.body, FullSet);
    c := Gen(p.body, false, TestDominator(cs, false), FullSet);
    t := TestSize(cs, false);
    var n := t + |c|;
    assert GenRep(p, opt, fl) == CodeTestSet(cs, false, n + 2) + c + Jump(IJmp, 0, -n);
    CodeAtSplit(code, a, CodeTestSet(cs, false, n + 2) + c, Jump(IJmp, 0, -n));
    CodeAtSplit(code, a, CodeTestSet(cs, false, n + 2), c);
  }

  /** L1: test -> L2; <p>; jmp L1; L2: */
  lemma {:induction false} TestLoopCorrect(p: Tree, opt: bool, fl: Charset,
                                           code: Code, s: seq<Byte>, a: nat, i: nat, st: Stack)
    requires p.TRep? && Wf(p) && CodeAt(code, a, GenRep(p, opt, fl)) && i <= |s|
    requires FollowOk(code, s, a + |GenRep(p, opt, fl)|, fl, st, p, i)
    requires !ToCharset(p.body).0
    requires HeadFail(p.body) || (!AcceptsEmpty(p.body) && First(p.body, FullSet) !! fl)
    ensures Same(code, s, Run(a, i, st), After(Peg(p, s, i), a + |GenRep(p, opt, fl)|, st))
    decreases p, |s| - i, 0
  {
    hide CodeAt, Gen, CodeTestSet, CharsetType, GetFirst, Step, Decode, Gives, GenRep;
    var q := p.body;
    var cs := First(q, FullSet);
    var t, c := TestLoopLayout(p, opt, fl, code, a);
    var n := t + |c|;
    if HeadFail(q) { HeadFailSound(q); }
    TestCorrect(code, s, a, cs, n + 2, i, st);
    if i < |s| && s[i] in cs {
      Correct(q, false, TestDominator(cs, false), FullSet, code, s, a + t, i, st);
      match Peg(q, s, i)
      case Fail => assert !HeadFail(q) && s[i] !in fl;
      case Ok(j) =>
        if j == i { EmptyMatchNullable(q, s, i); }
        AtJump(code, s, a + n, -n, j, st);
        TestLoopCorrect(p, opt, fl, code, s, a, j, st);
    } else {
      TestMeaning(q, s, i);
    }
  }

  /** The loop L1: <p>; partialcommit L1 over a choice entry that resumes at `b`. */
  lemma {:induction false} LoopBodyCorrect(q: Tree, code: Code, s: seq<Byte>, l1: nat, i: nat, st: Stack)
    requires Wf(TRep(q)) && i <= |s| && st.Push? && st.s == At(i)
    requires var c := Gen(q, false, NoTest, FullSet); CodeAt(code, l1, c + Jump(IPartialCommit, 0, -|c|))
    ensures Same(code, s, Run(l1, i, st), After(Peg(TRep(q), s, i), st.p, st.rest))
    decreases q, |s| - i, 3
  {
    hide CodeAt, Gen, Decode, Step, Gives, CharsetType, FixedLen;
    var c := Gen(q, false, NoTest, FullSet);
    CodeAtSplit(code, l1, c, Jump(IPartialCommit, 0, -|c|));
    Correct(q, false, NoTest, FullSet, code, s, l1, i, st);
    if Peg(q, s, i).Ok? {
      var j := Peg(q, s, i).pos;
      if j == i { EmptyMatchNullable(q, s, i); }
      AtPartialCommit(code, s, l1 + |c|, -|c|, j, st);
      LoopBodyCorrect(q, code, s, l1, j, Push(st.p, At(j), st.rest));
    }
  }

  lemma FullLoopLayout(p: Tree, opt: bool, fl: Charset, code: Code, a: nat) returns (t: nat, c: seq<Slot>)
    requires p.TRep? && CodeAt(code, a, GenRep(p, opt, fl)) && !ToCharset(p.body).0
    requires !(HeadFail(p.body) || (!AcceptsEmpty(p.body) && First(p.body, FullSet) !! fl))
    ensures var (cs, e) := GetFirst(p.body, FullSet);
      && c == Gen(p.body, false, NoTest, FullSet)
      && t == TestSize(cs, e)
      && CodeAt(code, a, CodeTestSet(cs, e, t + 2 + |c| + 2))
    ensures CodeAt(code, a + t, if opt then Jump(IPartialCommit, 0, 2) else Jump(IChoice, 0, 2 + |c| + 2))
    ensures CodeAt(code, a + t + 2, c + Jump(IPartialCommit, 0, -|c|))
    ensures |GenRep(p, opt, fl)| == t + 2 + |c| + 2
  {
    hide CodeAt, Gen, HeadFail, GetFirst, CharsetType, CodeTestSet;
    var (cs, e) := GetFirst(p.body, FullSet);
    c := Gen(p.body, false, NoTest, FullSet);
    t := TestSize(cs, e);
    var test := CodeTestSet(cs, e, t + 2 + |c| + 2);
    var head := if opt then Jump(IPartialCommit, 0, 2) else Jump(IChoice, 0, 2 + |c| + 2);
    var tail := Jump(IPartialCommit, 0, -|c|);
    assert GenRep(p, opt, fl) == test + head + c + tail;
    assert test + head + c + tail == test + head + (c + tail);
    CodeAtSplit(code, a, test + head, c + tail);
    CodeAtSplit(code, a, test, head);
  }

  /** test -> L2; choice L2 (or partialcommit); L1: <p>; partialcommit L1; L2: */
  lemma {:induction false} FullLoopCorrect(p: Tree, opt: bool, fl: Charset,
                                           code: Code, s: seq<Byte>, a: nat, i: nat, st: Stack)
    requires p.TRep? && Wf(p) && CodeAt(code, a, GenRep(p, opt, fl)) && i <= |s|
    requires opt ==> OptOk(code, a + |GenRep(p, opt, fl)|, st)
    requires !ToCharset(p.body).0
    requires !(HeadFail(p.body) || (!AcceptsEmpty(p.body) && First(p.body, FullSet) !! fl))
    ensures Same(code, s, Run(a, i, st), After(Peg(p, s, i), a + |GenRep(p, opt, fl)|, st))
    decreases p, |s| - i, 0
  {
    hide CodeAt, Gen, CodeTestSet, CharsetType, GetFirst, Step, Decode, Gives, GenRep;
    var q := p.body;
    var (cs, e) := GetFirst(q, FullSet);
    var t, c := FullLoopLayout(p, opt, fl, code, a);
    var b := a + t + 2 + |c| + 2;
    if !e { TestCorrect(code, s, a, cs, t + 2 + |c| + 2, i, st); }
    if !e && !(i < |s| && s[i] in cs) {
      TestMeaning(q, s, i);
    } else if opt {
      AtPartialCommit(code, s, a + t, 2, i, st);
      LoopBodyCorrect(q, code, s, a + t + 2, i, Push(st.p, At(i), st.rest));
      assert b == a + |GenRep(p, opt, fl)|;
      CommitSame(code, s, b, Peg(p, s, i).pos, st);
    } else {
      AtChoice(code, s, a + t, 2 + |c| + 2, i, st);
      LoopBodyCorrect(q, code, s, a + t + 2, i, Push(b, At(i), st));
    }
  }
}
