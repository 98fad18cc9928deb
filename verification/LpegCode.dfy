/** What lpcode.c generates for a grammar-free tree, as a sequence of slots. Offsets are relative
    to their instruction, so generated code does not depend on where it is placed. */
module LpegCode {
  import opened LpegTree
  import opened LpegAnalysis
  import opened LpegMachine

  datatype CharsetKind = EmptyKind | CharKind(c: Byte) | AnyKind | SetKind

  /** `charsettype`: empty, singleton, full, or none of those. */
  function CharsetType(cs: Charset): CharsetKind
  {
    if cs == {} then EmptyKind
    else if cs == FullSet then AnyKind
    else if exists c :: c in cs && cs == {c} then
      var c :| c in cs && cs == {c};
      CharKind(c)
    else SetKind
  }

  /** What the test instruction at index `tt`, if any, says about the next byte. */
  datatype Dominator = NoTest | OnChar(c: Byte) | OnSet(cs: Charset) | OnOther

  /** Four bytes of a charset, as the k-th slot of its buffer. */
  function CharsetSlot(cs: Charset, k: nat): Slot { Buff(set b | b in cs && b / 32 == k) }

  function CharsetSlots(cs: Charset): (r: seq<Slot>)
    ensures |r| == CHARSETINSTSIZE - 1
  {
    seq(CHARSETINSTSIZE - 1, k requires 0 <= k => CharsetSlot(cs, k))
  }

  function Jump(op: Opcode, aux: int, offset: int): seq<Slot> { [Inst(op, aux), Offset(offset)] }

  function CodeChar(c: Byte, tt: Dominator): seq<Slot>
  {
    if tt == OnChar(c) then [Inst(IAny, 0)] else [Inst(IChar, c)]
  }

  function CodeCharset(cs: Charset, tt: Dominator): seq<Slot>
  {
    match CharsetType(cs)
    case EmptyKind => [Inst(IFail, 0)]
    case AnyKind => [Inst(IAny, 0)]
    case CharKind(c) => CodeChar(c, tt)
    case SetKind => if tt == OnSet(cs) then [Inst(IAny, 0)] else [Inst(ISet, 0)] + CharsetSlots(cs)
  }

  /** `codetestset`, its offset already patched. */
  function CodeTestSet(cs: Charset, e: bool, offset: int): seq<Slot>
  {
    if e then []
    else
      match CharsetType(cs)
      case EmptyKind => Jump(IJmp, 0, offset)
      case AnyKind => Jump(ITestAny, 0, offset)
      case CharKind(c) => Jump(ITestChar, c, offset)
      case SetKind => Jump(ITestSet, 0, offset) + CharsetSlots(cs)
  }

  function TestSize(cs: Charset, e: bool): (n: nat)
    ensures forall offset :: |CodeTestSet(cs, e, offset)| == n
  {
    if e then 0 else if CharsetType(cs).SetKind? then CHARSETINSTSIZE + 1 else 2
  }

  function TestDominator(cs: Charset, e: bool): Dominator
  {
    if e then NoTest
    else
      match CharsetType(cs)
      case CharKind(c) => OnChar(c)
      case SetKind => OnSet(cs)
      case _ => OnOther
  }

  predicate NeedFollow(p: Tree)
  {
    match p
    case TChoice(_, _) => true
    case TRep(_) => true
    case TSeq(_, q2) => NeedFollow(q2)
    case _ => false
  }

  /** `codegen` */
  function Gen(p: Tree, opt: bool, tt: Dominator, fl: Charset): seq<Slot>
    decreases p, 1
  {
    match p
    case TChar(c) => CodeChar(c, tt)
    case TAny => [Inst(IAny, 0)]
    case TSet(cs) => CodeCharset(cs, tt)
    case TTrue => []
    case TFalse => [Inst(IFail, 0)]
    case TChoice(_, _) => GenChoice(p, opt, fl)
    case TRep(_) => GenRep(p, opt, fl)
    case TBehind(q, n) => (if n > 0 then [Inst(IBehind, n)] else []) + Gen(q, false, NoTest, FullSet)
    case TNot(_) => GenNot(p)
    case TAnd(_) => GenAnd(p, tt)
    case TSeq(q1, q2) =>
      Gen(q1, false, tt, if NeedFollow(q1) then First(q2, fl) else FullSet)
      + Gen(q2, opt, if FixedLen(q1) != 0 then NoTest else tt, fl)
    case TCall(_) => []
    case TGrammar(_) => []
  }

  /** The guard of `codechoice` under which no backtrack entry is needed. */
  predicate Exclusive(p1: Tree, p2: Tree, fl: Charset)
  {
    HeadFail(p1) || (!AcceptsEmpty(p1) && First(p1, FullSet) !! First(p2, fl))
  }

  function GenChoice(p: Tree, opt: bool, fl: Charset): seq<Slot>
    requires p.TChoice?
    decreases p, 0
  {
    var p1, p2 := p.p1, p.p2;
    var emptyp2 := p2.TTrue?;
    var (cs1, e1) := GetFirst(p1, FullSet);
    if Exclusive(p1, p2, fl) then
      var c1 := Gen(p1, false, TestDominator(cs1, false), fl);
      var c2 := Gen(p2, opt, NoTest, fl);
      var jmp := if emptyp2 then [] else Jump(IJmp, 0, 2 + |c2|);
      CodeTestSet(cs1, false, TestSize(cs1, false) + |c1| + |jmp|) + c1 + jmp + c2
    else if opt && emptyp2 then
      Jump(IPartialCommit, 0, 2) + Gen(p1, true, NoTest, FullSet)
    else
      var c1 := Gen(p1, emptyp2, TestDominator(cs1, e1), FullSet);
      var c2 := Gen(p2, opt, NoTest, fl);
      CodeTestSet(cs1, e1, TestSize(cs1, e1) + 2 + |c1| + 2)
      + Jump(IChoice, 0, 2 + |c1| + 2) + c1 + Jump(ICommit, 0, 2 + |c2|) + c2
  }

  function GenRep(p: Tree, opt: bool, fl: Charset): seq<Slot>
    requires p.TRep?
    decreases p, 0
  {
    var q := p.body;
    var (st, e1) := GetFirst(q, FullSet);
    if ToCharset(q).0 then [Inst(ISpan, 0)] + CharsetSlots(ToCharset(q).1)
    else if HeadFail(q) || (!e1 && st !! fl) then
      var c := Gen(q, false, TestDominator(st, false), FullSet);
      var n := TestSize(st, false) + |c|;
      CodeTestSet(st, false, n + 2) + c + Jump(IJmp, 0, -n)
    else
      var c := Gen(q, false, NoTest, FullSet);
      CodeTestSet(st, e1, TestSize(st, e1) + 2 + |c| + 2)
      + (if opt then Jump(IPartialCommit, 0, 2) else Jump(IChoice, 0, 2 + |c| + 2))
      + c + Jump(IPartialCommit, 0, -|c|)
  }

  function GenNot(p: Tree): seq<Slot>
    requires p.TNot?
    decreases p, 0
  {
    var q := p.body;
    var (st, e) := GetFirst(q, FullSet);
    if HeadFail(q) then
      CodeTestSet(st, e, TestSize(st, e) + 1) + [Inst(IFail, 0)]
    else
      var c := Gen(q, false, NoTest, FullSet);
      CodeTestSet(st, e, TestSize(st, e) + 2 + |c| + 1)
      + Jump(IChoice, 0, 2 + |c| + 1) + c + [Inst(IFailTwice, 0)]
  }

  function GenAnd(p: Tree, tt: Dominator): seq<Slot>
    requires p.TAnd?
    decreases p, 0
  {
    var q := p.body;
    var n := FixedLen(q);
    var c := Gen(q, false, tt, FullSet);
    if 0 <= n <= MAXBEHIND then
      c + (if n > 0 then [Inst(IBehind, n)] else [])
    else
      Jump(IChoice, 0, 2 + |c| + 2) + c + Jump(IBackCommit, 0, 3) + [Inst(IFail, 0)]
  }
}
