/** The matching machine of lpvm.c, capture-free opcodes.

    Code is an array of four-byte slots, as in the C union `Instruction`: an instruction slot, an
    offset slot, or one of the eight slots that hold a 32-byte charset. */
module LpegMachine {
  import opened LpegTree

  datatype Opcode =
    | IAny | IChar | ISet | ITestAny | ITestChar | ITestSet | ISpan | IBehind | IRet | IEnd
    | IChoice | IJmp | ICall | ICommit | IPartialCommit | IBackCommit | IFailTwice | IFail

  datatype Slot = Inst(code: Opcode, aux: int) | Offset(offset: int) | Buff(bits: Charset)

  type Code = seq<Slot>

  const CHARSETINSTSIZE := 9

  function SizeI(op: Opcode): (n: nat)
    ensures 1 <= n <= CHARSETINSTSIZE + 1
  {
    match op
    case ISet => CHARSETINSTSIZE
    case ISpan => CHARSETINSTSIZE
    case ITestSet => CHARSETINSTSIZE + 1
    case ITestChar => 2
    case ITestAny => 2
    case IChoice => 2
    case IJmp => 2
    case ICall => 2
    case ICommit => 2
    case IPartialCommit => 2
    case IBackCommit => 2
    case _ => 1
  }

  predicate HasLabel(op: Opcode)
  {
    op == ITestAny || op == ITestChar || op == ITestSet || op == IChoice || op == IJmp || op == ICall ||
    op == ICommit || op == IPartialCommit || op == IBackCommit
  }

  /** The charset stored in the eight slots from `at`: `testchar((p)->buff, c)` looks at bit
      `c` of the buffer. */
  function CharsetAt(code: Code, at: nat): Charset
    requires at + 8 <= |code|
  {
    set b: Byte | 0 <= b < 256 && code[at + b / 32].Buff? && b in code[at + b / 32].bits
  }

  /** `target(code, i)` */
  function Target(code: Code, i: nat): int
    requires i + 1 < |code| && code[i + 1].Offset?
  {
    i + code[i + 1].offset
  }

  /** An instruction as the interpreter reads it, its addresses made absolute. */
  datatype Instr =
    | Any(next: int)
    | Char(c: int, next: int)
    | Set(cs: Charset, next: int)
    | TestAny(dest: int, next: int)
    | TestChar(c: int, dest: int, next: int)
    | TestSet(cs: Charset, dest: int, next: int)
    | Span(cs: Charset, next: int)
    | Behind(n: int, next: int)
    | Ret
    | End
    | Choice(dest: int, next: int)
    | Jmp(dest: int)
    | Call(dest: int, next: int)
    | Commit(dest: int)
    | PartialCommit(dest: int)
    | BackCommit(dest: int)
    | FailTwice
    | FailI
    | Bad

  function Decode(code: Code, p: int): Instr
  {
    if !(0 <= p < |code|) || !code[p].Inst? then Bad
    else
      var op, aux := code[p].code, code[p].aux;
      if p + SizeI(op) > |code| then Bad
      else if HasLabel(op) && !code[p + 1].Offset? then Bad
      else
        match op
        case IAny => Any(p + 1)
        case IChar => Char(aux, p + 1)
        case ISet => Set(CharsetAt(code, p + 1), p + CHARSETINSTSIZE)
        case ITestAny => TestAny(Target(code, p), p + 2)
        case ITestChar => TestChar(aux, Target(code, p), p + 2)
        case ITestSet => TestSet(CharsetAt(code, p + 2), Target(code, p), p + 1 + CHARSETINSTSIZE)
        case ISpan => Span(CharsetAt(code, p + 1), p + CHARSETINSTSIZE)
        case IBehind => Behind(aux, p + 1)
        case IRet => Ret
        case IEnd => End
        case IChoice => Choice(Target(code, p), p + 2)
        case IJmp => Jmp(Target(code, p))
        case ICall => Call(Target(code, p), p + 2)
        case ICommit => Commit(Target(code, p))
        case IPartialCommit => PartialCommit(Target(code, p))
        case IBackCommit => BackCommit(Target(code, p))
        case IFailTwice => FailTwice
        case IFail => FailI
  }

  /** The backtrack stack; `s` is absent (NULL) in call entries. */
  datatype Stack = Nil | Push(p: int, s: Pos, rest: Stack)

  datatype Pos = Null | At(pos: nat)

  datatype Config = Run(p: int, pos: nat, stack: Stack) | Halt(res: Res) | Stuck

  /** Address of the `giveup` instruction, outside every pattern's code. */
  const GIVEUP := -1

  function Init(i: nat): Config { Run(0, i, Push(GIVEUP, At(i), Nil)) }

  /** The `fail:` label: drop pending calls, resume at the newest saved state. */
  function Backtrack(stack: Stack): Config
  {
    match stack
    case Nil => Stuck
    case Push(p, s, rest) => if s.Null? then Backtrack(rest) else Run(p, s.pos, rest)
  }

  function SpanEnd(cs: Charset, s: seq<Byte>, i: nat): (j: nat)
    requires i <= |s|
    ensures i <= j <= |s|
    decreases |s| - i
  {
    if i < |s| && s[i] in cs then SpanEnd(cs, s, i + 1) else i
  }

  /** A span takes bytes of the set, and the next byte is not one. */
  lemma {:induction false} SpanExact(cs: Charset, s: seq<Byte>, i: nat)
    requires i <= |s|
    ensures var j := SpanEnd(cs, s, i); (forall k | i <= k < j :: s[k] in cs) && (j < |s| ==> s[j] !in cs)
    decreases |s| - i
  {
    if i < |s| && s[i] in cs { SpanExact(cs, s, i + 1); }
  }

  /** One instruction; the asserts of the C code are the `Stuck` cases. */
  function Exec(d: Instr, s: seq<Byte>, i: nat, stack: Stack): Config
    requires i <= |s|
  {
    match d
    case Any(n) => if i < |s| then Run(n, i + 1, stack) else Backtrack(stack)
    case Char(c, n) => if i < |s| && s[i] == c then Run(n, i + 1, stack) else Backtrack(stack)
    case Set(cs, n) => if i < |s| && s[i] in cs then Run(n, i + 1, stack) else Backtrack(stack)
    case TestAny(l, n) => Run(if i < |s| then n else l, i, stack)
    case TestChar(c, l, n) => Run(if i < |s| && s[i] == c then n else l, i, stack)
    case TestSet(cs, l, n) => Run(if i < |s| && s[i] in cs then n else l, i, stack)
    case Span(cs, n) => Run(n, SpanEnd(cs, s, i), stack)
    case Behind(k, n) => if k > i then Backtrack(stack) else if k < 0 then Stuck else Run(n, i - k, stack)
    case Ret => if stack.Push? && stack.s.Null? then Run(stack.p, i, stack.rest) else Stuck
    case End => Halt(Ok(i))
    case Choice(l, n) => Run(n, i, Push(l, At(i), stack))
    case Jmp(l) => Run(l, i, stack)
    case Call(l, n) => Run(l, i, Push(n, Null, stack))
    case Commit(l) => if stack.Push? && stack.s.At? then Run(l, i, stack.rest) else Stuck
    case PartialCommit(l) =>
      if stack.Push? && stack.s.At? then Run(l, i, stack.(s := At(i))) else Stuck
    case BackCommit(l) =>
      if stack.Push? && stack.s.At? then Run(l, stack.s.pos, stack.rest) else Stuck
    case FailTwice => if stack.Push? then Backtrack(stack.rest) else Stuck
    case FailI => Backtrack(stack)
    case Bad => Stuck
  }

  function Step(code: Code, s: seq<Byte>, c: Config): Config
  {
    match c
    case Run(p, i, stack) =>
      if p == GIVEUP then Halt(Fail)
      else if i > |s| then Stuck
      else Exec(Decode(code, p), s, i, stack)
    case _ => c
  }

  function Steps(code: Code, s: seq<Byte>, c: Config, n: nat): Config
    decreases n
  {
    if n == 0 then c else Steps(code, s, Step(code, s, c), n - 1)
  }

  /** Started in `c`, the machine stops with result `r`. */
  ghost predicate Gives(code: Code, s: seq<Byte>, c: Config, r: Res)
  {
    exists n: nat :: Steps(code, s, c, n) == Halt(r)
  }

  /** Both configurations lead to the same results. */
  ghost predicate Same(code: Code, s: seq<Byte>, c: Config, d: Config)
  {
    forall r :: Gives(code, s, c, r) <==> Gives(code, s, d, r)
  }

  lemma StepSame(code: Code, s: seq<Byte>, c: Config)
    ensures Same(code, s, c, Step(code, s, c))
  {
    var d := Step(code, s, c);
    forall r ensures Gives(code, s, c, r) <==> Gives(code, s, d, r) {
      if Gives(code, s, c, r) {
        var n: nat :| Steps(code, s, c, n) == Halt(r);
        if n == 0 {
          assert Steps(code, s, d, 0) == Halt(r);
        } else {
          assert Steps(code, s, d, n - 1) == Halt(r);
        }
      }
      if Gives(code, s, d, r) {
        var n: nat :| Steps(code, s, d, n) == Halt(r);
        assert Steps(code, s, c, n + 1) == Halt(r);
      }
    }
  }

  lemma {:induction false} HaltStays(code: Code, s: seq<Byte>, r: Res, n: nat)
    ensures Steps(code, s, Halt(r), n) == Halt(r)
    decreases n
  {
    if n > 0 { HaltStays(code, s, r, n - 1); }
  }

  /** A run has at most one result. */
  lemma {:induction false} StepsAgree(code: Code, s: seq<Byte>, c: Config, n: nat, m: nat, r: Res, q: Res)
    requires Steps(code, s, c, n) == Halt(r) && Steps(code, s, c, m) == Halt(q)
    ensures r == q
    decreases n + m
  {
    if n == 0 {
      HaltStays(code, s, r, m);
    } else if m == 0 {
      HaltStays(code, s, q, n);
    } else {
      StepsAgree(code, s, Step(code, s, c), n - 1, m - 1, r, q);
    }
  }

  lemma GivesUnique(code: Code, s: seq<Byte>, c: Config, r: Res, q: Res)
    requires Gives(code, s, c, r) && Gives(code, s, c, q)
    ensures r == q
  {
    var n: nat :| Steps(code, s, c, n) == Halt(r);
    var m: nat :| Steps(code, s, c, m) == Halt(q);
    StepsAgree(code, s, c, n, m, r, q);
  }
}
