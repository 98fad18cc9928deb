# Skynet, verified parts

This project models the algorithms of the Skynet server that are hardest to get right, and proves
what they are for: on every input, in every run and under every interleaving. `dafny verify
dfyconfig.toml` checks all of it. The files belong to these parts.

- **LPeg** (`Lpeg*.dfy`): pattern trees and what they mean, the static analyses, code generation
  with its context-dependent optimisations, the peephole pass, the backtracking machine, the checks
  on grammars, and the operators that build and rearrange trees. The main result is
  `LpegCompiler.CompiledMatches`: optimised code gives a result if and only if the pattern means it.
  Code generation is stated twice, as functions (`LpegCode.dfy`) and as the class that appends to and
  patches the code array (`LpegCompiler.dfy`); the methods are proved to fill the array with what
  the functions say.
- **Timing wheel** (`TimerWheel.dfy`): four levels and a near wheel on a clock of 32 bits that wraps.
  A timer fires in exactly the tick it asked for, in the order of adding.
- **Scheduler** (`Scheduler.dfy`, `MessageQueue.dfy`): atomic steps of workers, senders, creators and
  killers over services with their flags and counts, and the ring buffer behind a queue: who dispatches,
  what is delivered to whom and in which order, and when things may be freed.
- **Big integers** (`BigInt.dfy`, `BigIntDivide.dfy`, `Dtoa.dfy`, `DtoaDigits.dfy`,
  `DtoaConvert.dfy`, `DtoaFixed.dfy`): the word-array arithmetic of dtoa.c up to the digits of a
  ratio, rounded half to even.
- **Sockets** (`SocketSend.dfy`): the two send lists, the direct write of a worker and writes of any
  length; what reaches the wire is a prefix of whole packages, with one exception.
- **Locks and copies** (`RwLock.dfy`, `Stm.dfy`, `StmReads.dfy`): the spinning reader/writer lock for
  any number of threads, the reference counts of shared copies on top of it, and what readers read.
- **DES** (`DesStandard.dfy`, `DesTables.dfy`, `Des.dfy`, `DesCorrect.dfy`): the standard bit by bit, the
  tables and the code of the ciphers, and the proof that they are the standard.
- **Data** (`ShareData.dfy`, `DhExchange.dfy`, `Seri.dfy`, `SeriBlocks.dfy`, `SeriFormat.dfy`,
  `Netpack.dfy`): the frozen chained hash, the key exchange, the serializer and packet reassembly.
- `Basics.dfy` holds the types they share.

## How the source is read

- Bit operations on clock values, words and tags are written with division and remainder by the
  powers of two they stand for, and `|` of values without common bits as a sum; the DES files use
  bit-vectors. Wrap-around is written out where the source relies on it.
- Memory is sequentially consistent and allocation succeeds. A step of a state machine is one atomic
  access, or one section under a lock that no other step can see into.
- In the scheduler, how many messages a worker takes before it gives a queue back is left open, and
  what a callback sends is a step of a sending thread. A thread that has pushed to a context without a
  queue takes no further step.
- Of a worker that may write to a socket itself, the check before the lock is a hint that may be out of
  date, so a worker may take the lock at any time; the check behind it is modelled access by access.
  The socket thread frees lists and waits for the lock in separate steps; its other conditions are
  read at once, and a turn in which it has the lock is one step.
- A `write` may take any part of what it is given, would block, may be interrupted or may fail, in
  any order; a worker that has not written yet may try again.
- Linked lists are sequences of nodes where only their order matters, and arrays where slots are
  linked by index.
- A few arguments of methods are ghosts that name the mathematical value in an array.

## Findings

- `verifyrule` answers for a sub-grammar with its nullability alone and drops the accumulated flag
  (lptree.c:1037-1038), although its comment says that a set flag makes it answer true. Every grammar
  that the walk would accept with the flag kept matches in finite time
  (`LpegGrammar.AcceptedGrammarEnds`), and so does every accepted grammar without sub-grammars
  (`LpegGrammar.FlatGrammarEnds`). With the flag dropped, `S <- !R S` and `S <- &R S` are accepted for
  exactly the sub-grammars R that are not nullable; the first ends if and only if R matches, the second
  if and only if R fails (`LpegGrammar.EndlessBuilt`). With `R <- 'b'` the first matches forever on "a"
  (`LpegGrammar.EndlessExample`).
- `skynet_context_new` gives the creator's reference back and uses the context after that
  (skynet_server.c:164-171), to set `ctx->init` and to log. Another thread can retire the service in
  between and delete the context (`Scheduler.InitAfterDelete`, `Scheduler.LogAfterDelete`). The use is
  safe exactly if the service is still registered or some thread has a counted reference
  (`Scheduler.UncountedUseSafe`).
- `skynet_context_new` registers the handle before it makes the queue (skynet_server.c:155-156). A push
  by a thread that has grabbed the handle finds a queue if and only if the creator is not between the
  two (`Scheduler.PushFindsQueue`); `Scheduler.PushBeforeQueue` is a run that finds none.
- `force_close` frees the two lists before it takes `dw_lock` (socket_server.c:420-429). A worker that
  has the lock by then finds the lists empty on its second check and writes, behind a package of which
  only a part was written (`SocketSend.TornRun`). A step tears the stream if and only if it is such a
  write: of a byte or more, while a close waits that has freed a package written in part
  (`SocketSend.Socket.Step`). In a run without such a step what is written is a prefix of whole
  packages, and after one it is not, unless the bytes happen to be those that were left
  (`SocketSend.Socket.Run`).
- `ldesdecode` compares an `int` with a `size_t` (lua-crypt.c:425), so that a negative index counts as
  large. For texts of less than 2^31 bytes it reads in front of its buffer if and only if its text is
  the one block that is the cipher of eight zeros under that key (`Des.DesDecode`); every key has one
  (`Des.DecodeZeros`). From 2^31 bytes on its index does not fit an `int`.
- `powmodp` reduces only arguments above P, so P to the power of 1 is P and not 0; this is the only
  exception (`DhExchange.PowModAny`), and the exchange never produces P.

## Model

| member | source | states |
|---|---|---|
| LpegCompiler.CompiledMatches | skynet/3rd/lpeg/lpcode.c:1001-1010 | For every pattern, subject and start the peepholed code gives a result if and only if the pattern means it |
| LpegCompiler.RawCodeMatches | skynet/3rd/lpeg/lpcode.c:917-944 | The code before the peephole pass gives what the pattern means |
| LpegCompiler.CompilePattern | skynet/3rd/lpeg/lpcode.c:1001-1010 | The array filled by the compiler gives, on all subjects and starts, what the pattern means |
| LpegCompiler.Match | skynet/3rd/lpeg/lpvm.c:149-293 | The interpreter loop returns the result its code gives |
| LpegCompiler.MatchPattern | skynet/3rd/lpeg/lpvm.c:149-293 | Compiling and matching is matching by meaning |
| LpegTree.Peg | skynet/3rd/lpeg/lpvm.c:160-293 | Where a match can end: between its start and the end of the subject; a repetition always matches |
| LpegAnalysis.EmptyMatchNullable | skynet/3rd/lpeg/lpcode.c:196-230 | A pattern that is not nullable consumes whenever it matches |
| LpegAnalysis.NoFailSucceeds | skynet/3rd/lpeg/lpcode.c:196-230 | A nofail pattern never fails |
| LpegAnalysis.NullableExact | skynet/3rd/lpeg/lpcode.c:196-230 | Without calls, nullable are exactly the patterns that match the empty subject when every predicate passes |
| LpegAnalysis.NoFailExact | skynet/3rd/lpeg/lpcode.c:196-230 | Without calls, nofail are exactly the patterns that match the empty subject when every predicate that can fail does |
| LpegAnalysis.PlainNullable | skynet/3rd/lpeg/lpcode.c:196-230 | Without predicates both mean that the pattern matches the empty subject |
| LpegAnalysis.FixedLenExact | skynet/3rd/lpeg/lpcode.c:236-273 | Every match of a pattern of fixed length n consumes exactly n bytes |
| LpegAnalysis.FixedLenFound | skynet/3rd/lpeg/lpcode.c:236-273 | A length is found exactly for patterns without repetitions whose choices have alternatives of equal width, and it is their width |
| LpegAnalysis.FirstSound | skynet/3rd/lpeg/lpcode.c:294-368 | A match that consumes, or that leaves a byte of the follow set, starts with a byte of the first set |
| LpegAnalysis.EmptyIndependent | skynet/3rd/lpeg/lpcode.c:294-368 | Whether a test may be used does not depend on the follow set |
| LpegAnalysis.FailsAtEnd | skynet/3rd/lpeg/lpcode.c:294-368 | A pattern for which a test may be used fails at the end of the subject |
| LpegAnalysis.NoFailFirstFull | skynet/3rd/lpeg/lpcode.c:294-368 | A pattern that never fails can start with every byte |
| LpegAnalysis.HeadFailSound | skynet/3rd/lpeg/lpcode.c:377-399 | A head-fail pattern may always be tested, and a next byte in its first set guarantees success |
| LpegAnalysis.HeadFailExact | skynet/3rd/lpeg/lpcode.c:377-399 | A head-fail pattern succeeds if and only if the next byte is in its first set |
| LpegMachine.StepSame | skynet/3rd/lpeg/lpvm.c:160-293 | A step of the machine keeps what a configuration finally gives |
| LpegMachine.GivesUnique | skynet/3rd/lpeg/lpvm.c:160-293 | Code gives at most one result |
| LpegMachine.SizeI | skynet/3rd/lpeg/lpcode.c:438-447 | An instruction takes from 1 to 10 slots |
| LpegMachine.SpanExact | skynet/3rd/lpeg/lpvm.c:225-232 | A span passes only bytes of its set and stops at the first that is none, or at the end |
| LpegCorrect.Correct | skynet/3rd/lpeg/lpcode.c:917-944 | The inductive statement: with its test passed, its follow set respected and a reusable choice on the stack when `opt` is set, a segment run from its start comes to what its tree means |
| LpegCorrect.CharsetRoundTrip | skynet/3rd/lpeg/lpcode.c:573-580 | A set appended as a buffer reads back as the same set |
| LpegCorrect.TestCorrect | skynet/3rd/lpeg/lpcode.c:614-635 | A test falls through exactly on a byte of its set and jumps otherwise |
| LpegCorrect.CharCorrect | skynet/3rd/lpeg/lpcode.c:561-567 | A character behind a test that has seen it is matched by any |
| LpegCorrect.CharsetCorrect | skynet/3rd/lpeg/lpcode.c:588-605 | A set is matched by the opcode chosen for its size, behind a test or not |
| LpegCorrect.SeqCorrect | skynet/3rd/lpeg/lpcode.c:899-911 | A sequence: the follow set of the first child is the first set of the second, and the test is kept only when nothing is consumed |
| LpegCorrect.SecondFails | skynet/3rd/lpeg/lpcode.c:899-911 | Before a byte outside the first set of the second child, that child and what follows it fail |
| LpegCorrect.BehindCorrect | skynet/3rd/lpeg/lpcode.c:659-663 | Look-behind goes back by its length, or fails |
| LpegCorrect.AndCorrect | skynet/3rd/lpeg/lpcode.c:720-737 | The predicate, by going back a fixed length or by a choice with back-commit |
| LpegCorrect.NotCorrect | skynet/3rd/lpeg/lpcode.c:823-837 | The negation, by a test alone for head-fail bodies or by a choice with fail-twice |
| LpegCorrect.ChoiceCorrect | skynet/3rd/lpeg/lpcode.c:677-711 | All three forms of a choice mean the choice |
| LpegCorrect.ExclusiveMeaning | skynet/3rd/lpeg/lpcode.c:681-693 | Past the test of an exclusive choice a failing first alternative leaves nothing to lose |
| LpegCorrect.ExclusiveChoiceCorrect | skynet/3rd/lpeg/lpcode.c:681-693 | A choice by a test only, correct relative to the follow set |
| LpegCorrect.ReusedChoiceCorrect | skynet/3rd/lpeg/lpcode.c:694-699 | A partial commit reuses the choice of the enclosing optional pattern |
| LpegCorrect.FullChoiceCorrect | skynet/3rd/lpeg/lpcode.c:700-711 | A choice guarded by a test and a backtrack entry |
| LpegCorrect.RepCorrect | skynet/3rd/lpeg/lpcode.c:777-813 | All forms of a repetition mean the repetition |
| LpegCorrect.SpanIsRep | skynet/3rd/lpeg/lpcode.c:780-783 | A repeated set is a span |
| LpegCorrect.TestLoopCorrect | skynet/3rd/lpeg/lpcode.c:786-793 | A loop by a test alone, when the body is head-fail or cannot start what follows |
| LpegCorrect.FullLoopCorrect | skynet/3rd/lpeg/lpcode.c:794-811 | A loop with a choice and partial commits, reused or its own |
| LpegCorrect.TestMeaning | skynet/3rd/lpeg/lpcode.c:614-635 | A byte outside the first set makes the pattern fail when a test may be used |
| LpegLayout.GenSeg | skynet/3rd/lpeg/lpcode.c:917-944 | Every generated segment is laid out in whole instructions, with jumps that land on instructions or at its end |
| LpegLayout.PatternReady | skynet/3rd/lpeg/lpcode.c:1001-1010 | The code of a whole pattern meets what the peephole pass relies on |
| LpegPeephole.FinalTarget | skynet/3rd/lpeg/lpcode.c:641-645 | Following jumps ends, at an instruction that is no jump |
| LpegPeephole.FinalTargetPath | skynet/3rd/lpeg/lpcode.c:641-645 | There is a path of jumps from an instruction to its final target |
| LpegPeephole.FinalLabel | skynet/3rd/lpeg/lpcode.c:651-653 | The final label is an instruction that is no jump |
| LpegPeephole.PeepReady | skynet/3rd/lpeg/lpcode.c:956-995 | One round of the pass keeps the layout |
| LpegPeephole.PeepSimulates | skynet/3rd/lpeg/lpcode.c:956-995 | One round of the pass keeps every result from every related configuration |
| LpegPeephole.PeepholeKeeps | skynet/3rd/lpeg/lpcode.c:956-995 | The whole pass keeps every result |
| LpegCompiler.CompileState.AddInstruction | skynet/3rd/lpeg/lpcode.c:494-499 | Appends one instruction and tells its index |
| LpegCompiler.CompileState.AddOffsetInst | skynet/3rd/lpeg/lpcode.c:505-510 | Appends an instruction with an open offset |
| LpegCompiler.CompileState.JumpToThere | skynet/3rd/lpeg/lpcode.c:543-546 | Sets the offset of a jump, and nothing else |
| LpegCompiler.CompileState.JumpToHere | skynet/3rd/lpeg/lpcode.c:552-554 | Sets the offset of a jump to the next instruction |
| LpegCompiler.CompileState.AddCharset | skynet/3rd/lpeg/lpcode.c:573-580 | Appends the buffer of a set |
| LpegCompiler.CompileState.EmitChar | skynet/3rd/lpeg/lpcode.c:561-567 | Appends the code of a character |
| LpegCompiler.CompileState.EmitCharset | skynet/3rd/lpeg/lpcode.c:588-605 | Appends the code of a set |
| LpegCompiler.CompileState.EmitTestSet | skynet/3rd/lpeg/lpcode.c:614-635 | Appends a test, or none when the empty string must pass |
| LpegCompiler.CompileState.Codegen | skynet/3rd/lpeg/lpcode.c:917-944 | Appends the code of a pattern; what was there stays |
| LpegCompiler.CompileState.EmitSeq1 | skynet/3rd/lpeg/lpcode.c:899-911 | Appends the first child and tells which test still holds |
| LpegCompiler.CompileState.EmitAnd | skynet/3rd/lpeg/lpcode.c:720-737 | Appends the code of a predicate |
| LpegCompiler.CompileState.EmitNot | skynet/3rd/lpeg/lpcode.c:823-837 | Appends the code of a negation, with its test patched |
| LpegCompiler.CompileState.EmitRep | skynet/3rd/lpeg/lpcode.c:777-813 | Appends the code of a repetition |
| LpegCompiler.CompileState.EmitChoice | skynet/3rd/lpeg/lpcode.c:677-711 | Appends the code of a choice |
| LpegCompiler.CompileState.FindFinalTarget | skynet/3rd/lpeg/lpcode.c:641-645 | The loop that follows jumps finds their final target |
| LpegCompiler.CompileState.OptimizeJumps | skynet/3rd/lpeg/lpcode.c:956-995 | The pass over the array in place is the pass proved to keep results |
| LpegCompiler.CompileState.OptimizeJump | skynet/3rd/lpeg/lpcode.c:974-990 | A jump becomes what it jumps to, or jumps to its final target |
| LpegGrammar.Eval | skynet/3rd/lpeg/lpvm.c:160-293 | Where a match with rules can end, under a bound on calls and rounds: inside the subject |
| LpegGrammar.MoreFuel | skynet/3rd/lpeg/lpvm.c:160-293 | A match that ends keeps its result under every larger bound |
| LpegGrammar.EvalIsPeg | skynet/3rd/lpeg/lpvm.c:160-293 | Without grammars, a match that ends has the reference meaning |
| LpegGrammar.AcceptedGrammarEnds | skynet/3rd/lpeg/lptree.c:1045-1063 | A grammar that the check accepts, and would accept if its walk kept the nullable flag at sub-grammars, matches in finite time on every subject from every position; what the keeping walk accepts, the code accepts |
| LpegGrammar.FlatGrammarEnds | skynet/3rd/lpeg/lptree.c:1045-1063 | Every accepted grammar without sub-grammars ends, on every subject from every position |
| LpegGrammar.FlagKeptEnds | skynet/3rd/lpeg/lptree.c:1037-1038 | So does every accepted grammar whose walk drops no flag |
| LpegGrammar.KeepingBuildsLess | skynet/3rd/lpeg/lptree.c:1002-1063 | The walk that keeps the flag accepts no more than the one of the code |
| LpegGrammar.DroppedButKept | skynet/3rd/lpeg/lptree.c:1037-1038 | A grammar that drops a flag and passes both walks |
| LpegGrammar.EndsVerified | skynet/3rd/lpeg/lptree.c:1002-1042 | A pattern that passed the keeping walk with some rules behind it ends: the subject advances, or another rule is entered, or the pattern gets smaller |
| LpegGrammar.EndsAnywhere | skynet/3rd/lpeg/lptree.c:952-969 | A pattern without empty loops ends from any position in a verified grammar |
| LpegGrammar.EmptyMatchVerdict | skynet/3rd/lpeg/lptree.c:1002-1042 | A pattern that can match empty is reported nullable by the walk that keeps the flag; what the walk of the code reports exactly is LpegAccepts.WalkPasses |
| LpegGrammar.EmptyMatchNullableIn | skynet/3rd/lpeg/lpcode.c:196-230 | Inside a grammar a pattern that can match empty is nullable, whatever the recursion bound |
| LpegGrammar.EndlessAccepted | skynet/3rd/lpeg/lptree.c:1037-1038 | For every sub-grammar R, the grammars S <- !R S and S <- &R S are accepted if and only if R is not nullable, and never by the walk that keeps the flag |
| LpegGrammar.EndlessEnds | skynet/3rd/lpeg/lptree.c:1037-1038 | S <- !R S ends if and only if R matches, S <- &R S if and only if R fails |
| LpegGrammar.EndlessBuilt | skynet/3rd/lpeg/lptree.c:1037-1038 | Both families for every R that is not nullable: accepted, refused by the keeping walk, and endless exactly where the predicate passes |
| LpegGrammar.EndlessExample | skynet/3rd/lpeg/lptree.c:1037-1038 | S <- !R S with R <- b is accepted and matches forever on the subject a |
| LpegAccepts.AcceptedIffInnocent | skynet/3rd/lpeg/lptree.c:1045-1063 | A grammar without sub-grammars is accepted if and only if its first calls fall along a rank of at most MAXRULES and no rule repeats a body that may pass without consuming; defined without the walk |
| LpegAccepts.AnyRankAccepted | skynet/3rd/lpeg/lptree.c:1045-1063 | With at most MAXRULES rules every rank will do |
| LpegAccepts.AcceptedFalls | skynet/3rd/lpeg/lptree.c:1002-1042 | An accepted grammar has such a rank: the room that is left behind each rule |
| LpegAccepts.PassesIsEmpty | skynet/3rd/lpeg/lptree.c:1002-1042 | In a grammar without predicates what may pass is exactly what matches the empty subject |
| LpegAccepts.WalkPasses | skynet/3rd/lpeg/lptree.c:1002-1042 | Where the walk ends it says exactly whether the pattern may pass, or the flag was set |
| LpegAccepts.NullableInExact | skynet/3rd/lpeg/lpcode.c:196-230 | Inside an accepted grammar nullable are exactly the patterns that may pass |
| LpegAccepts.LoopsExact | skynet/3rd/lpeg/lptree.c:952-968 | Empty loops are found exactly where a body that may pass is repeated |
| LpegAccepts.SearchAccepted | skynet/3rd/lpeg/lptree.c:1045-1063 | The search grammar S <- 'x' / . S is accepted |
| LpegBuild.Seq | skynet/3rd/lpeg/lptree.c:532-542 | The simplified sequence means the sequence and is well formed |
| LpegBuild.Choice | skynet/3rd/lpeg/lptree.c:551-566 | The simplified choice, with joined sets and dropped alternatives, means the choice |
| LpegBuild.Sub | skynet/3rd/lpeg/lptree.c:627-646 | The difference, by sets or by a negation, means not-then |
| LpegBuild.ClassesClosed | skynet/3rd/lpeg/lptree.c:551-645 | A choice and a difference of patterns of one byte are one set, of exactly the bytes that match |
| LpegBuild.Identities | skynet/3rd/lpeg/lptree.c:532-570 | True and false are neutral and absorbing, and no node is built for them or for an alternative that is never tried |
| LpegBuild.Behind | skynet/3rd/lpeg/lptree.c:680-690 | Look-behind is built exactly for bodies of fixed length up to the limit |
| LpegBuild.BehindRefuses | skynet/3rd/lpeg/lptree.c:680-690 | Look-behind is refused exactly for bodies with repetitions or uneven choices, and for those that are too wide |
| LpegBuild.BehindMeans | skynet/3rd/lpeg/lptree.c:680-690 | It matches exactly where some match of its body ends |
| LpegBuild.Star | skynet/3rd/lpeg/lptree.c:572-602 | Repetition is refused exactly for bodies that are nullable and without an upper bound, and is well formed otherwise; which bodies these are is LpegBuild.StarRefuses |
| LpegBuild.StarRefuses | skynet/3rd/lpeg/lptree.c:572-602 | Without an upper bound it is refused exactly for bodies that match the empty subject when predicates pass; without predicates, exactly for those that match it |
| LpegBuild.StarMeans | skynet/3rd/lpeg/lptree.c:572-602 | What it builds takes as many copies as there are up to -n, or matches exactly if there are n copies and goes on as the repetition |
| LpegBuild.AtMostMeans | skynet/3rd/lpeg/lptree.c:586-600 | p^-n takes as many copies as there are, up to n, and never fails |
| LpegBuild.AtLeastMeans | skynet/3rd/lpeg/lptree.c:576-585 | p^n matches if and only if n copies do, and goes on as the repetition does |
| LpegBuild.RotateOnce | skynet/3rd/lpeg/lptree.c:81-89 | One round moves the nodes of the array into the rotated tree, and touches no other node |
| LpegBuild.CorrectAssociativity | skynet/3rd/lpeg/lptree.c:78-90 | The loop leaves the nodes of the tree whose first child has another operator |
| LpegBuild.Righted | skynet/3rd/lpeg/lptree.c:78-90 | Rotating ends, with a first child of another operator and as many nodes |
| LpegBuild.RotateAlike | skynet/3rd/lpeg/lptree.c:78-90 | A rotation changes nothing that is matched |
| LpegBuild.FinalFix | skynet/3rd/lpeg/lptree.c:100-126 | The walk over the array leaves the nodes of the fixed tree, in place |
| LpegBuild.FixedAlike | skynet/3rd/lpeg/lptree.c:100-126 | The fixed tree matches what the tree matches |
| LpegBuild.FixedKeeps | skynet/3rd/lpeg/lptree.c:100-126 | The fixed tree is as well formed, as nullable and as long |
| LpegBuild.FixedNested | skynet/3rd/lpeg/lptree.c:100-126 | In the fixed tree no sequence begins with a sequence and no choice with a choice |
| LpegBuild.FixAndMatch | skynet/3rd/lpeg/lptree.c:1102-1107 | A pattern fixed, compiled and run matches what it means |
| TimerWheel.Place | skynet/skynet-src/skynet_timer.c:75-93 | Every expiry and clock has a list among those there are |
| TimerWheel.PlaceStable | skynet/skynet-src/skynet_timer.c:119-139 | When the clock advances, wrapping included, a timer changes its list only if its list is the one taken apart |
| TimerWheel.MovedAt | skynet/skynet-src/skynet_timer.c:119-139 | A tick takes apart no list or one of those there are |
| TimerWheel.FindMoved | skynet/skynet-src/skynet_timer.c:119-139 | The search through the masks finds the list a tick takes apart |
| TimerWheel.AddHolds | skynet/skynet-src/skynet_timer.c:96-106 | Linking a new timer keeps every pending timer in its one list, in order |
| TimerWheel.ShiftHolds | skynet/skynet-src/skynet_timer.c:109-139 | Cascading loses nothing, duplicates nothing and keeps order |
| TimerWheel.FireHolds | skynet/skynet-src/skynet_timer.c:160-170 | The near list under the clock is what is due, in the order added, and taking it leaves the rest |
| TimerWheel.DueOrLater | skynet/skynet-src/skynet_timer.c:160-170 | Each pending timer is due or kept, as often as it was there |
| TimerWheel.OneOp | skynet/skynet-src/skynet_timer.c:173-185 | One operation fires a timer that expires in that tick as often as it is pending, and keeps it otherwise |
| TimerWheel.NeverAgain | skynet/skynet-src/skynet_timer.c:173-185 | A timer that has fired never fires again |
| TimerWheel.FiresExactly | skynet/skynet-src/skynet_timer.c:173-185 | In every run a pending timer is dispatched in exactly the update its remaining delay counts, as often as it is pending, whatever is added meanwhile |
| TimerWheel.AddedFires | skynet/skynet-src/skynet_timer.c:96-106 | A timer added with delay d, from 1 up to 2^31, fires once in the d-th following update and in no other, at every clock value |
| TimerWheel.Timer.Run | skynet/skynet-src/skynet_timer.c:96-185 | A wheel on which any sequence of additions and updates is carried out fires, step by step, what the runs above fire |
| TimerWheel.Timer.AddAndRun | skynet/skynet-src/skynet_timer.c:96-185 | On a wheel in any state, a new timer with delay d is fired once by the d-th update after it, and by no other |
| TimerWheel.Timer.AddNode | skynet/skynet-src/skynet_timer.c:75-93 | Links a node into the list of its place, and no other |
| TimerWheel.Timer.TimerAdd | skynet/skynet-src/skynet_timer.c:96-106 | The pending timers are the old ones and the new one |
| TimerWheel.Timer.MoveList | skynet/skynet-src/skynet_timer.c:109-116 | A list is taken apart into the places of its nodes |
| TimerWheel.Timer.TimerShift | skynet/skynet-src/skynet_timer.c:119-139 | Advances the clock and keeps the pending timers |
| TimerWheel.Timer.TimerExecute | skynet/skynet-src/skynet_timer.c:160-170 | Dispatches what is due now, in order |
| TimerWheel.Timer.TimerUpdate | skynet/skynet-src/skynet_timer.c:173-185 | One tick fires exactly what is due at the new time; what callbacks add is pending after it |
| TimerWheel.Timer.constructor | skynet/skynet-src/skynet_timer.c:188-209 | An empty wheel |
| Scheduler.StepKeeps | skynet/skynet-src/skynet_server.c:297-351 | Every atomic step of every worker, sender, creator and killer keeps the invariant |
| Scheduler.Reachable | skynet/skynet-src/skynet_server.c:126-351 | The invariant holds after every interleaving of any number of threads |
| Scheduler.SingleDispatcher | skynet/skynet-src/skynet_server.c:297-351 | No service is dispatched by two workers |
| Scheduler.OnePlace | skynet/skynet-src/skynet_mq.c:44-75 | Each unfreed queue is linked once in the global queue, or with exactly one thread, or idle: empty, unreleased and marked outside |
| Scheduler.NoStrandedQueue | skynet/skynet-src/skynet_mq.c:190-209 | A queue with messages is unfreed and linked or with one thread |
| Scheduler.DeliveredOnce | skynet/skynet-src/skynet_server.c:304-338 | Each accepted message was handed over once and in order, or is still queued; a freed queue has none left; messages are dropped only after the release, and then all that are left; from any moment on, while the callback is set they are given to it and while it is not they are discarded |
| Scheduler.StepLogsOne | skynet/skynet-src/skynet_server.c:322-335 | A step takes at most one message from a queue, the oldest, and only the worker that has the queue does: it is given to the callback exactly if that is set, and dropped exactly after the release |
| Scheduler.CallbackDecides | skynet/skynet-src/skynet_server.c:331-335 | While the callback is set no message is discarded, and while it is not none is given to it, in every run from every reachable state |
| Scheduler.ReleasedDrops | skynet/skynet-src/skynet_mq.c:231-250 | Once a queue is released for good, all that is taken from it is dropped |
| Scheduler.GlobalIsFifo | skynet/skynet-src/skynet_mq.c:44-75 | In every run the queues leave the global queue in the order in which they stand in it |
| Scheduler.WorkerDelivers | skynet/skynet-src/skynet_server.c:291-335 | From every reachable state an idle worker gets to hand over the oldest message of the first queue in the global queue, to the callback if one is set |
| Scheduler.SenderQueues | skynet/skynet-src/skynet_mq.c:190-209 | And an idle sender to append its message to the queue of a registered service, to link that queue if it was outside, and to be idle again |
| Scheduler.CreatorLaunches | skynet/skynet-src/skynet_server.c:126-172 | And an idle creator to launch a service, registered, with its queue linked, its callback set and init true |
| Scheduler.StepIsQueue | skynet/skynet-src/skynet_mq.c:138-250 | Each step does to a queue what one operation of its ring buffer does, and links it when that asks for it |
| Scheduler.DispatchedAfterInit | skynet/skynet-src/skynet_server.c:253-255 | A service is dispatched only after its creator has set init, as the assertion says |
| Scheduler.CountedUseSafe | skynet/skynet-src/skynet_server.c:209-239 | A queue held or linked, and a context with a counted reference or up for deletion, exists |
| Scheduler.UncountedUseSafe | skynet/skynet-src/skynet_server.c:164-172 | At every moment a context is there and not being deleted exactly if the service is registered or a thread has a counted reference; its creator, who uses it with the reference given back, is safe exactly then |
| Scheduler.InitAfterDelete | skynet/skynet-src/skynet_server.c:164-167 | A run in which the context is deleted when ctx->init is to be set |
| Scheduler.LogAfterDelete | skynet/skynet-src/skynet_server.c:168-171 | A run in which it is deleted when the launch is to be logged |
| Scheduler.FreedStays | skynet/skynet-src/skynet_mq.c:240-250 | A freed queue never changes again, so it is dropped once |
| Scheduler.PopGlobalKeeps | skynet/skynet-src/skynet_mq.c:59-75 | Taking the head of the global queue hands it to one worker |
| Scheduler.NextQueueKeeps | skynet/skynet-src/skynet_server.c:341-350 | Going on with the next queue gives the old one back |
| Scheduler.LinkKeeps | skynet/skynet-src/skynet_mq.c:44-56 | Linking hands a queue from a thread to the global queue |
| Scheduler.PushKeeps | skynet/skynet-src/skynet_mq.c:190-209 | Pushing links an idle queue, once |
| Scheduler.TakeKeeps | skynet/skynet-src/skynet_mq.c:138-172 | Taking a message, or finding none and going idle, keeps the invariant; what becomes of the message is Scheduler.StepLogsOne |
| Scheduler.GrabKeeps | skynet/skynet-src/skynet_handle.c:137-153 | Grabbing a handle raises the count of a living context |
| Scheduler.RetireKeeps | skynet/skynet-src/skynet_handle.c:74-110 | Retiring passes the table reference on |
| Scheduler.DecKeeps | skynet/skynet-src/skynet_server.c:221-227 | Dropping a reference; the last one starts deletion |
| Scheduler.MarkKeeps | skynet/skynet-src/skynet_mq.c:220-228 | Marking for release links the queue if it was idle |
| Scheduler.MqReleaseKeeps | skynet/skynet-src/skynet_mq.c:240-250 | Releasing drops a marked queue, and links an unmarked one again |
| Scheduler.DrainKeeps | skynet/skynet-src/skynet_mq.c:231-237 | Dropping hands over the messages left |
| Scheduler.CreateKeeps | skynet/skynet-src/skynet_server.c:126-155 | A new service starts registered, with its creator holding a reference and the queue it is to make |
| Scheduler.PushFindsQueue | skynet/skynet-src/skynet_server.c:155-156 | Whoever has grabbed a handle and pushes finds a queue if and only if the creator is not between registration and the queue |
| Scheduler.PushBeforeQueue | skynet/skynet-src/skynet_server.c:155-156 | A run in which a message is pushed to a context without a queue |
| Scheduler.ContextKeeps | skynet/skynet-src/skynet_server.c:164-171 | Making the queue, setting init or the callback and logging keep the invariant |
| MessageQueue.MessageQueue.Contents | skynet/skynet-src/skynet_mq.c:112-125 | The ring is never full |
| MessageQueue.MessageQueue.constructor | skynet/skynet-src/skynet_mq.c:78-96 | An empty queue marked as inside the global queue |
| MessageQueue.MessageQueue.Length | skynet/skynet-src/skynet_mq.c:112-125 | The number of messages, also when the ring wraps |
| MessageQueue.Unrolled | skynet/skynet-src/skynet_mq.c:175-187 | A full ring copied in order into an array twice as large |
| MessageQueue.MessageQueue.Expand | skynet/skynet-src/skynet_mq.c:175-187 | Doubling keeps all messages in order |
| MessageQueue.MessageQueue.Push | skynet/skynet-src/skynet_mq.c:190-209 | Appends one message, through wrap-around and doubling; the queue is to be linked exactly if it was outside |
| MessageQueue.MessageQueue.Pop | skynet/skynet-src/skynet_mq.c:138-172 | Takes the oldest message, or goes outside the global queue |
| MessageQueue.MessageQueue.MarkRelease | skynet/skynet-src/skynet_mq.c:220-228 | Marks for release, to be linked exactly if outside |
| MessageQueue.DropQueue | skynet/skynet-src/skynet_mq.c:231-237 | Every message left is dropped, in order |
| BigInt.FromWord | skynet/3rd/cjson/dtoa.c:790-803 | A number of one word |
| BigInt.MultAdd | skynet/3rd/cjson/dtoa.c:613-667 | b * m + a exactly, in a larger array when the carry needs one |
| BigInt.MultAddWords | skynet/3rd/cjson/dtoa.c:632-655 | The carry loop: words and carry together are the old words times m plus a |
| BigInt.Mult | skynet/3rd/cjson/dtoa.c:806-913 | The exact product, without leading zero words |
| BigInt.MultWords | skynet/3rd/cjson/dtoa.c:845-858 | The nested carry loops compute the product |
| BigInt.MultRow | skynet/3rd/cjson/dtoa.c:848-857 | One row adds y times the words of a |
| BigIntDivide.Cmp | skynet/3rd/cjson/dtoa.c:1035-1066 | The sign of the difference, for numbers without leading zero words |
| BigIntDivide.Diff | skynet/3rd/cjson/dtoa.c:1069-1160 | The distance, with a sign when the first is smaller |
| BigIntDivide.DiffWords | skynet/3rd/cjson/dtoa.c:1111-1124 | The borrow loops compute the difference |
| BigIntDivide.LShift | skynet/3rd/cjson/dtoa.c:975-1031 | b * 2^k in a new number, without leading zero words |
| BigIntDivide.ShiftBits | skynet/3rd/cjson/dtoa.c:1001-1012 | The shifting loop moves bits across words without loss |
| BigIntDivide.ShiftWord | skynet/3rd/cjson/dtoa.c:1005-1009 | The bits or-ed into a shifted word are where it has none |
| BigIntDivide.SubtractRow | skynet/3rd/cjson/dtoa.c:2160-2190 | The carry and borrow loop subtracts q times a number that is not larger |
| Dtoa.Pow5Cache.Pow5Mult | skynet/3rd/cjson/dtoa.c:918-972 | b * 5^k, with the cache kept |
| Dtoa.Pow5Cache.Pow625Mult | skynet/3rd/cjson/dtoa.c:948-971 | The loop multiplies by 5^(4k), bit by bit of k |
| Dtoa.Pow5Cache.Next | skynet/3rd/cjson/dtoa.c:956-969 | A missing node is made by squaring; node i holds 5^(4*2^i) |
| DtoaDigits.Quorem | skynet/3rd/cjson/dtoa.c:2120-2241 | With a top word of S in [2^27, 2^28) and b < 16 S: quotient and remainder exactly; zero is recognised by the test the callers use |
| DtoaDigits.Estimate | skynet/3rd/cjson/dtoa.c:2149-2149 | The estimate from the top words is never too large and at most one too small |
| DtoaDigits.CorrectOnce | skynet/3rd/cjson/dtoa.c:2198-2239 | One correction is enough |
| DtoaDigits.StripTop | skynet/3rd/cjson/dtoa.c:2191-2196 | Leading zero words go; only zero ends with no word |
| DtoaConvert.GenerateDigits | skynet/3rd/cjson/dtoa.c:4284-4296 | The digits written so far and the remainder make up the ratio; it stops when nothing is left or after the digits asked for |
| DtoaConvert.RoundUp | skynet/3rd/cjson/dtoa.c:4314-4322 | One more in the last place, with the exponent raised exactly when all digits were nines |
| DtoaConvert.StripZeros | skynet/3rd/cjson/dtoa.c:4323-4329 | Trailing zeros go, the value stays |
| DtoaConvert.RoundedDigits | skynet/3rd/cjson/dtoa.c:4284-4329 | From S <= b < 10 S: b/S rounded half to even to the digits asked for, in canonical form, with the exponent raised exactly when the rounded value needs one more digit |
| DtoaConvert.HalfEvenNearest | skynet/3rd/cjson/dtoa.c:4306-4313 | Rounding gives n if and only if n is nearest, and even in a tie |
| DtoaConvert.DecimalUnique | skynet/3rd/cjson/dtoa.c:4284-4329 | Digits and exponent of a value are unique, so the output is fixed by its value |
| DtoaConvert.ExactDigits | skynet/3rd/cjson/dtoa.c:4286-4292 | Stopping early, with no remainder, is exact |
| DtoaConvert.RaisedExponent | skynet/3rd/cjson/dtoa.c:4314-4322 | The exponent is raised if and only if the rounded value is the next power of ten |
| DtoaFixed.Hi0Bits | skynet/3rd/cjson/dtoa.c:708-739 | The leading zero bits of a word, 32 for zero |
| DtoaFixed.DShift | skynet/3rd/cjson/dtoa.c:2110-2117 | The shift after which every number of that value has four leading zero bits |
| DtoaFixed.FixedDigits | skynet/3rd/cjson/dtoa.c:4152-4329 | From the two scales on, for every exponent estimate that is right or one too large: the ratio rounded to the digits asked for, or nothing, or a lone one |
| DtoaFixed.WriteDigits | skynet/3rd/cjson/dtoa.c:4169-4180 | With no digits asked for, a one exactly when the value rounds up to it |
| SocketSend.Socket.Run | skynet/skynet-src/socket_server.c:581-1648 | In every run of any steps of workers and socket thread what is written is a prefix of whole packages, unless and until a step tears it; a torn stream is such a prefix only if the bytes behind the cut happen to be those that were left. Requests of a priority and direct writes each go in the order submitted; wb_size is what the lists hold, half-closed or not |
| SocketSend.Socket.Step | skynet/skynet-src/socket_server.c:1606-1647 | A step tears the stream if and only if a worker writes a byte or more, as the first of its package, while a close waits that has freed a package of which a part was written |
| SocketSend.Socket.WholePackages | skynet/skynet-src/socket_server.c:717-726 | What is written is a prefix of whole packages if the stream is not torn, and all of them with nothing on its way; if it is torn, exactly when the bytes behind the cut are those that were left |
| SocketSend.TornMeans | skynet/skynet-src/socket_server.c:411-437 | A stream that goes on behind the written part of a package is a prefix of whole packages if and only if what follows is what was left of that package |
| SocketSend.Socket.SendListTcp | skynet/skynet-src/socket_server.c:581-611 | For every sequence of results of write: what stays in the list, what is written and whether it closes; it goes on until a part, a would-block or an error |
| SocketSend.Socket.TookBytes | skynet/skynet-src/socket_server.c:598-609 | A write of n bytes advances the first buffer by n, or takes it out exactly if n is all of it |
| SocketSend.Socket.RaiseUncomplete | skynet/skynet-src/socket_server.c:697-711 | A half-sent low package moves to the empty high list, and the order of writing stays |
| SocketSend.Socket.SendBothLists | skynet/skynet-src/socket_server.c:727-766 | High, then low when high is empty, a half-sent low package to the high list; closes when all is sent and the socket is half-closed; the assertions of the code are proved |
| SocketSend.Socket.SendBuffer | skynet/skynet-src/socket_server.c:769-794 | Nothing while a worker has the lock; otherwise the rest of a direct write is first in the high list |
| SocketSend.Socket.TakeDirectRest | skynet/skynet-src/socket_server.c:772-789 | The rest of a direct write is put before the high list |
| SocketSend.Socket.Receive | skynet/skynet-src/socket_server.c:845-911 | A package becomes the last of its list; of the high list, whatever its priority, when nothing waits; of none on a closing socket. In the order of writing a high one is put before all low packages that wait, and a low one behind everything |
| SocketSend.Socket.TryLock | skynet/skynet-src/socket_server.c:1606-1608 | A worker gets the lock exactly if no other has it |
| SocketSend.Socket.CheckAccess | skynet/skynet-src/socket_server.c:934-936 | The second check reads the two lists, dw_buffer and sending one after the other; the first that is not empty gives the lock back |
| SocketSend.Socket.CheckState | skynet/skynet-src/socket_server.c:1590-1608 | The last access decides on the direct write |
| SocketSend.Socket.StartDirect | skynet/skynet-src/socket_server.c:1608-1613 | Packages that came in during the check are whole and go behind the direct write |
| SocketSend.Socket.StartLate | skynet/skynet-src/socket_server.c:411-437 | A direct write can start while a close that has freed the lists waits for the lock |
| SocketSend.TornRun | skynet/skynet-src/socket_server.c:411-437 | A run that tears a package: one byte of two is written, the close frees the list, and a worker writes behind it |
| SocketSend.Socket.DirectWrite | skynet/skynet-src/socket_server.c:1610-1630 | The write of a worker puts any number of the first bytes of its package on the wire; it tears the stream exactly in the case above |
| SocketSend.Socket.LeaveDirect | skynet/skynet-src/socket_server.c:1631-1647 | All written, or the rest left for the socket thread |
| SocketSend.Socket.FreeAndWait | skynet/skynet-src/socket_server.c:420-425 | Closing frees both lists before it has the lock; what a worker has on its way stays |
| SocketSend.Socket.FinishClose | skynet/skynet-src/socket_server.c:425-436 | With the lock free it closes, and frees the rest of a direct write |
| SocketSend.Socket.CloseLocked | skynet/skynet-src/socket_server.c:593-594 | A close from within a turn has the lock and is one step |
| SocketSend.Socket.CloseSocket | skynet/skynet-src/socket_server.c:939-967 | What it sends and what a half-closed socket keeps is one turn of the socket thread, or nothing with a worker in the lock or nothing to send; with shutdown, or with nothing left, it closes; half-closed it is only with something left to send |
| SocketSend.Socket.Announce | skynet/skynet-src/socket_server.c:1123-1142 | The count of requests on their way is raised by one, below its limit only |
| SocketSend.Socket.Settle | skynet/skynet-src/socket_server.c:1145-1152 | The count is lowered by one, and was not zero |
| SocketSend.Socket.Submit | skynet/skynet-src/socket_server.c:1650-1658 | A request enters the pipe |
| SocketSend.StartedIsPrefix | skynet/skynet-src/socket_server.c:717-726 | Whole packages and the started part of the next are a prefix of the order of writing |
| SocketSend.AppendKeepsFifo | skynet/skynet-src/socket_server.c:797-834 | A package put before whole low ones keeps the order within each priority |
| RwLock.Exclusion | skynet/skynet-src/rwlock.h:17-48 | For any number of threads and every interleaving of atomic accesses a writer inside excludes every other writer and every reader inside |
| RwLock.TurnKeeps | skynet/skynet-src/rwlock.h:17-48 | Every access keeps the counters exact and readers apart from writers |
| RwLock.OneWriter | skynet/skynet-src/rwlock.h:33-38 | At most one thread has set the writer word |
| RwLock.GetsToRead | skynet/skynet-src/rwlock.h:17-31 | With all others outside, a thread reads after at most four turns of its own, from every place on its way in |
| RwLock.GetsToWrite | skynet/skynet-src/rwlock.h:33-38 | And writes after at most three |
| RwLock.GetsOut | skynet/skynet-src/rwlock.h:40-48 | One turn more and the lock is free |
| Stm.StepKeeps | skynet/lualib-src/lua-stm.c:27-115 | Every atomic step keeps every count exact and touches no freed copy |
| Stm.CopiesSafe | skynet/lualib-src/lua-stm.c:205-233 | At every moment of every run the count of a copy is the reference of the object and those of the threads; a held copy is not freed; none is freed twice or touched when freed |
| Stm.EveryCopyFreed | skynet/lualib-src/lua-stm.c:47-71 | When the object is deleted and the readers have let go, every copy ever made is freed exactly once |
| Stm.HeldIsLive | skynet/lualib-src/lua-stm.c:93-104 | A held copy has references and is not freed |
| Stm.ReadCounts | skynet/lualib-src/lua-stm.c:93-104 | Reading the copy under the lock |
| Stm.UpdateCounts | skynet/lualib-src/lua-stm.c:106-115 | Replacing the copy under the lock and releasing the old one keep the counts; that it is the new copy that is then read is StmReads.ReadIsLast |
| Stm.DeleteCounts | skynet/lualib-src/lua-stm.c:57-71 | Releasing the last copy of the writer inside the lock |
| Stm.ReleaseCounts | skynet/lualib-src/lua-stm.c:47-55 | The last reference frees the copy |
| StmReads.CurrentIsLast | skynet/lualib-src/lua-stm.c:106-115 | At every moment of every run the copy in place is the one that the last update made, and there is none once the object is deleted |
| StmReads.ReadIsFresh | skynet/lualib-src/lua-stm.c:205-233 | A read ends with a copy that was in place at some moment since it began, and with none only after the deletion; the callback is given it, and the answer is true, exactly if it is not the copy that was read before |
| StmReads.ReadIsLast | skynet/lualib-src/lua-stm.c:205-233 | Without an update in between, and before the deletion, that is the copy of the last update |
| ShareData.ConvTable | skynet/lualib-src/lua-sharedata.c:277-325 | The frozen table is the source table, whatever memory held before |
| ShareData.Table.FillNoColliding | skynet/lualib-src/lua-sharedata.c:213-235 | After the first pass the array is set and the slot of each key is filled |
| ShareData.Table.FillColliding | skynet/lualib-src/lua-sharedata.c:238-272 | After the second pass every key has a slot, and every slot a key |
| ShareData.Table.InsertColliding | skynet/lualib-src/lua-sharedata.c:254-267 | A key without a slot gets an empty one behind the main slot |
| ShareData.EmptySlot | skynet/lualib-src/lua-sharedata.c:256-262 | While a key has no slot there is an empty one |
| ShareData.ChainDistinct | skynet/lualib-src/lua-sharedata.c:502-530 | A chain has no slot twice: it ends |
| ShareData.AddColliding | skynet/lualib-src/lua-sharedata.c:262-267 | Linking a slot behind the main one keeps every chain |
| ShareData.Table.LookupKey | skynet/lualib-src/lua-sharedata.c:502-530 | The slot of a key, or none exactly for absent keys |
| ShareData.Table.IndexConf | skynet/lualib-src/lua-sharedata.c:533-567 | The value of the source table for present keys, nothing for absent ones |
| ShareData.Table.NextKey | skynet/lualib-src/lua-sharedata.c:590-646 | The key after a key in the order, or the first |
| ShareData.Table.Traverse | skynet/lualib-src/lua-sharedata.c:590-646 | Going on from nil visits every key exactly once |
| ShareData.CountSize | skynet/lualib-src/lua-sharedata.c:68-89 | As many slots as keys outside the array |
| ShareData.Table.FirstHash | skynet/lualib-src/lua-sharedata.c:580-587 | The key of the first slot, if there is one |
| ShareData.Table.FillArray | skynet/lualib-src/lua-sharedata.c:312-319 | Without a hash part the array is set by index |
| Des.PermutationsInvert | skynet/lualib-src/lua-crypt.c:204-228 | The final permutation inverts the initial one, and the other way round |
| Des.RoundsUndo | skynet/lualib-src/lua-crypt.c:317-338 | Sixteen rounds undo themselves under the reversed subkeys, whatever the S-boxes are |
| Des.BlockRoundTrip | skynet/lualib-src/lua-crypt.c:317-338 | Deciphering a block gives it back, for every block, schedule and S-boxes (deciphering in FIPS 46-3) |
| Des.DesCrypt | skynet/lualib-src/lua-crypt.c:317-338 | The block cipher, on two words; which cipher that is is DesCorrect.CryptIsStandard |
| Des.MainKs | skynet/lualib-src/lua-crypt.c:247-305 | The loop over the sixteen iterations fills in the key schedule |
| DesCorrect.CryptIsStandard | skynet/lualib-src/lua-crypt.c:317-338 | With the tables and the key schedule of the code, for every key and every block, the block cipher is the one of FIPS 46-3, defined bit by bit |
| DesCorrect.SubkeysAgree | skynet/lualib-src/lua-crypt.c:247-305 | For every key the two words of each iteration hold the 48 bits of the subkey of FIPS 46-3 |
| DesCorrect.MixIsF | skynet/lualib-src/lua-crypt.c:230-243 | What a round mixes into the other half is the function f of FIPS 46-3 |
| DesCorrect.InitialIsIP | skynet/lualib-src/lua-crypt.c:204-213 | The word exchanges are the initial permutation, up to a rotation of both halves |
| DesCorrect.FinalIsInverse | skynet/lualib-src/lua-crypt.c:217-226 | And the inverse initial permutation |
| DesCorrect.RoundsAreIterations | skynet/lualib-src/lua-crypt.c:325-332 | After each round the two words are the halves of FIPS 46-3 |
| DesCorrect.EncodedIsStandard | skynet/lualib-src/lua-crypt.c:367-399 | Each block of an enciphered text is the block of the padded text, enciphered by the standard |
| DesCorrect.ReversedDeciphers | skynet/lualib-src/lua-crypt.c:402-439 | With the subkeys in reverse order the block cipher is the inverse of the standard |
| DesCorrect.KnownCipher | skynet/lualib-src/lua-crypt.c:317-338 | Eight zeros under the key of eight ones become 8c a6 4d e9 c1 b1 23 a7 |
| Des.DesEncode | skynet/lualib-src/lua-crypt.c:367-399 | The padded text ciphered block by block, if and only if the key has 8 bytes and the length fits an int |
| Des.DesDecode | skynet/lualib-src/lua-crypt.c:402-439 | Gives back t if and only if its input is what t was ciphered to with the same key; reads in front of its buffer if and only if its input is the cipher of eight zeros; its int index overflows if and only if its input is whole blocks of 2^31 bytes or more |
| Des.CryptBlocks | skynet/lualib-src/lua-crypt.c:420-422 | The loop over the blocks, with an int for its index, ciphers all of them if and only if they are less than 2^31 bytes |
| Des.DecodeZeros | skynet/lualib-src/lua-crypt.c:424-437 | Every key has such an input |
| Des.PadUnique | skynet/lualib-src/lua-crypt.c:424-437 | A padded text has one reading |
| Des.Unpad | skynet/lualib-src/lua-crypt.c:424-437 | The counting loop, with its comparison of an int and a size_t, strips exactly the padding; it leaves the buffer if and only if that is eight zeros |
| Des.ReverseKeys | skynet/lualib-src/lua-crypt.c:405-410 | The subkeys in reverse order, by pairs |
| DhExchange.MulModP | skynet/lualib-src/lua-crypt.c:718-737 | a * b mod P for a <= P, in wrapping arithmetic |
| DhExchange.DoubleModP | skynet/lualib-src/lua-crypt.c:729-733 | The doubling wraps around and comes out right |
| DhExchange.PowModP | skynet/lualib-src/lua-crypt.c:740-750 | a^b mod P for b >= 1, not reduced when b is 1 |
| DhExchange.PowModAny | skynet/lualib-src/lua-crypt.c:753-758 | The power modulo P if and only if not both a is P and b is 1 |
| DhExchange.Exchange | skynet/lualib-src/lua-crypt.c:793-810 | 5^x mod P, never zero; an error exactly for zero |
| DhExchange.Secret | skynet/lualib-src/lua-crypt.c:776-788 | x^y mod P if and only if not both x is P and y is 1; an error exactly for zeros |
| DhExchange.SameSecret | skynet/lualib-src/lua-crypt.c:776-810 | Both orders of exponents give the same power |
| DhExchange.NotZero | skynet/lualib-src/lua-crypt.c:790-806 | No power of 5 is a multiple of P |
| DhExchange.Agree | skynet/lualib-src/lua-crypt.c:776-810 | Both sides compute the same secret for all non-zero keys |
| Seri.OneRound | skynet/lualib-src/lua-seri.c:524-532 | A packed value of any kind and nesting is read back, and no byte after it is touched |
| SeriFormat.SmallBytes | skynet/lualib-src/lua-seri.c:130-188 | The bytes of nil, booleans, doubles and pointers |
| SeriFormat.IntBytes | skynet/lualib-src/lua-seri.c:142-174 | The bytes of every integer: none, one, two, four or eight behind the first, the lowest first |
| SeriFormat.StringBytes | skynet/lualib-src/lua-seri.c:190-213 | The bytes of every string, with its length in the first byte, or in two or four |
| SeriFormat.TableBytes | skynet/lualib-src/lua-seri.c:217-257 | The bytes of a table around those of its parts, with the length of the array part in the first byte up to 30, and behind it from 31 on |
| SeriFormat.FitsExact | skynet/lualib-src/lua-seri.c:297-340 | A value is packed exactly if all of it is supported and no part of it is inside more than 32 tables |
| Seri.ListRound | skynet/lualib-src/lua-seri.c:556-597 | Unpacking a packed list gives the list |
| Seri.IntRound | skynet/lualib-src/lua-seri.c:143-174 | An integer of every width is read back |
| Seri.StrRound | skynet/lualib-src/lua-seri.c:191-213 | A string is read back at every length boundary |
| Seri.HeadRead | skynet/lualib-src/lua-seri.c:218-228 | The length of an array part is read back, short or long |
| Seri.TableRound | skynet/lualib-src/lua-seri.c:435-465 | A table is read back with its array and its pairs |
| SeriBlocks.WriteBlock.Push | skynet/lualib-src/lua-seri.c:66-85 | The chain of blocks holds exactly what was pushed before, and the new bytes |
| SeriBlocks.WriteBlock.Flatten | skynet/lualib-src/lua-seri.c:535-553 | The blocks copied into one buffer are what was pushed |
| SeriBlocks.PackInteger | skynet/lualib-src/lua-seri.c:143-174 | Writes an integer in the width chosen |
| SeriBlocks.PackString | skynet/lualib-src/lua-seri.c:191-213 | Writes a string with its length |
| SeriBlocks.PackOne | skynet/lualib-src/lua-seri.c:297-340 | Writes the bytes of a value, or fails exactly for unsupported types and nesting beyond the limit |
| SeriBlocks.PackTable | skynet/lualib-src/lua-seri.c:283-294 | Writes a table, array part and pairs |
| SeriBlocks.Pack | skynet/lualib-src/lua-seri.c:600-612 | The bytes of a list, or an error exactly when a value does not fit |
| SeriBlocks.ReadBlock.Take | skynet/lualib-src/lua-seri.c:119-128 | Reads sz bytes exactly if there are as many |
| SeriBlocks.GetInteger | skynet/lualib-src/lua-seri.c:360-400 | Reads an integer, or finds the stream invalid |
| SeriBlocks.UnpackTable | skynet/lualib-src/lua-seri.c:435-465 | Reads a table, or finds the stream invalid |
| SeriBlocks.UnpackOne | skynet/lualib-src/lua-seri.c:524-532 | Reads a value, or finds the stream invalid |
| SeriBlocks.PushValue | skynet/lualib-src/lua-seri.c:468-521 | Reads a value by its type and cookie, or finds the stream invalid |
| SeriBlocks.Unpack | skynet/lualib-src/lua-seri.c:556-597 | All values of a stream, or an error exactly if it is invalid |
| SeriBlocks.PackAndUnpack | skynet/lualib-src/lua-seri.c:556-612 | A list of values comes back the same if all of them fit, and is refused otherwise |
| Netpack.ParseConcat | skynet/lualib-src/lua-netpack.c:228-307 | Cutting a stream does not matter |
| Netpack.ParseFrames | skynet/lualib-src/lua-netpack.c:437-452 | What was framed comes out again |
| Netpack.Reassemble | skynet/lualib-src/lua-netpack.c:228-307 | However the bytes of any number of sockets are cut and interleaved, the packets of each are those of its whole stream, in order |
| Netpack.Filter.FilterData | skynet/lualib-src/lua-netpack.c:228-307 | One chunk: the packets of what waited and the chunk, at once or through the queue, and the rest waits |
| Netpack.Filter.PushMore | skynet/lualib-src/lua-netpack.c:189-215 | All packets of a buffer go to the queue in order, the rest into a record |
| Netpack.Filter.FindUncomplete | skynet/lualib-src/lua-netpack.c:93-114 | The one record of a socket is taken out of its chain, all others stay |
| Netpack.Filter.SaveUncomplete | skynet/lualib-src/lua-netpack.c:170-180 | A record is linked at the head of its chain |
| Netpack.Filter.CloseUncomplete | skynet/lualib-src/lua-netpack.c:218-225 | Nothing waits for a closed socket |
| Netpack.PacketQueue.PushData | skynet/lualib-src/lua-netpack.c:151-167 | Appends a packet, through wrap-around and growth |
| Netpack.PacketQueue.Expand | skynet/lualib-src/lua-netpack.c:134-148 | Growing keeps the packets in order |
| Netpack.PacketQueue.Pop | skynet/lualib-src/lua-netpack.c:397-411 | Takes the oldest packet |

## Left out

- LpegGrammar.AcceptedGrammarEnds: one direction only. The condition is a walk over the rules; an accepted grammar that it refuses may still end, on some subjects as `S <- !R S` does or on all. Accepted families in which the call follows a choice or a repetition, as `S <- R^0 S`, are not treated: there `getfirst` (lpcode.c:294-368) follows the call without end while the code is generated.
- LpegAccepts.AcceptedIffInnocent: grammars without sub-grammars; for those with sub-grammars see the first finding. Whether a pattern may pass counts every predicate and look-behind as passing, as the original does.
- LpegCompiler.CompiledMatches: patterns without captures and without grammars; the code of calls and grammars (`codegrammar`, `correctcalls`) is not generated, and the backtrack stack is unbounded.
- LpegCompiler.CompileState.Codegen: instructions are appended to a sequence; the doubling of the code buffer is not part of this model.
- LpegBuild.FinalFix: trees without calls, and one array node per character set, where the original keeps the bits of a set in the nodes after it.
- LpegBuild.Star: the tree that is built, not the array it is written into.
- Captures, run-time captures and `lpcap.c` are not part of this model.
- Scheduler.StepKeeps: `skynet_context_dispatchall` and `skynet_context_reserve`, overload warnings, profiling and worker sleep are left out.
- TimerWheel.Timer.TimerUpdate: the time of day and what a callback does are parameters; a list is a sequence.
- BigInt.Mult: the free lists of `Balloc` and `Bfree` are left out; a number that is freed is simply no longer used.
- DtoaFixed.FixedDigits: the shortest-digits loop (`leftright`), the floating-point fast path and the reading of the double are not part of this model; the ratio and the exponent estimate are inputs.
- SocketSend.Socket.Run: one socket over plain buffers; user objects, UDP, warnings and event registration are left out. Requests and direct writes each keep their order; how a direct write is ordered against requests of other threads is only what the lock gives.
- Stm.CopiesSafe: the shell around lock and copy is never freed, and the lock is always left, so the last step of `stm_releasereader` is not modelled.
- ShareData.ConvTable: strings stand for themselves instead of indices into a string table, nested tables are values, and integer keys fit in 32 bits.
- Des.DesDecode: what lies in front of the buffer, and what happens once an index does not fit an `int`, is not part of this model.
- DhExchange.Exchange: keys are numbers, not strings of 8 bytes.
- SeriBlocks.PackOne: metamethods (`__pairs`) and Lua stack limits are left out; a table is its array part and the other pairs in the order `lua_next` gives.
- SeriBlocks.PackTable: as for PackOne.
- SeriBlocks.UnpackTable: storing into the table and errors raised by Lua for its keys are left out.
- Netpack.Filter.FilterData: empty chunks are left out, as the caller never passes one, and `lclear` is not part of this model.
- The handle and name tables, BSON, the Lua socket buffer, harbor, cluster and logging code are not part of this model: their claims have the shape of those proved here.
