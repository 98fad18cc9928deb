/** Grammars: the checks that `verifygrammar` makes, and when they guarantee that matching ends. */
module LpegGrammar {
  import opened LpegTree
  import opened LpegAnalysis

  // ----- matching with rules, which need not terminate -----

  datatype Outcome = OutOfFuel | Done(res: Res)

  /** Match `p` at `i` inside the grammar with rules `g`; `n` bounds the depth of rule calls and
      loop rounds. An endless match runs out of fuel for every `n`. */
  function Eval(g: seq<Tree>, p: Tree, s: seq<Byte>, i: nat, n: nat): (r: Outcome)
    requires i <= |s|
    ensures r.Done? && r.res.Ok? ==> i <= r.res.pos <= |s|
    decreases n, p
  {
    match p
    case TChar(c) => Done(if i < |s| && s[i] == c then Ok(i + 1) else Fail)
    case TSet(cs) => Done(if i < |s| && s[i] in cs then Ok(i + 1) else Fail)
    case TAny => Done(if i < |s| then Ok(i + 1) else Fail)
    case TTrue => Done(Ok(i))
    case TFalse => Done(Fail)
    case TRep(q) =>
      (match Eval(g, q, s, i, n)
       case OutOfFuel => OutOfFuel
       case Done(Fail) => Done(Ok(i))
       case Done(Ok(j)) => if n == 0 then OutOfFuel else Eval(g, p, s, j, n - 1))
    case TSeq(q1, q2) =>
      (match Eval(g, q1, s, i, n)
       case OutOfFuel => OutOfFuel
       case Done(Fail) => Done(Fail)
       case Done(Ok(j)) => Eval(g, q2, s, j, n))
    case TChoice(q1, q2) =>
      (match Eval(g, q1, s, i, n)
       case OutOfFuel => OutOfFuel
       case Done(Fail) => Eval(g, q2, s, i, n)
       case Done(Ok(j)) => Done(Ok(j)))
    case TNot(q) =>
      (match Eval(g, q, s, i, n)
       case OutOfFuel => OutOfFuel
       case Done(Fail) => Done(Ok(i))
       case Done(Ok(_)) => Done(Fail))
    case TAnd(q) =>
      (match Eval(g, q, s, i, n)
       case OutOfFuel => OutOfFuel
       case Done(Fail) => Done(Fail)
       case Done(Ok(_)) => Done(Ok(i)))
    case TBehind(q, k) =>
      if i < k then Done(Fail)
      else
        (match Eval(g, q, s, i - k, n)
         case OutOfFuel => OutOfFuel
         case Done(Fail) => Done(Fail)
         case Done(Ok(_)) => Done(Ok(i)))
    case TCall(k) =>
      if k >= |g| then Done(Fail) else if n == 0 then OutOfFuel else Eval(g, g[k], s, i, n - 1)
    case TGrammar(rules) =>
      if |rules| == 0 then Done(Fail) else if n == 0 then OutOfFuel else Eval(rules, rules[0], s, i, n - 1)
  }

  /** Matching ends. */
  ghost predicate Ends(g: seq<Tree>, p: Tree, s: seq<Byte>, i: nat)
    requires i <= |s|
  {
    exists n: nat :: Eval(g, p, s, i, n).Done?
  }

  /** More fuel changes nothing once matching ends. */
  lemma {:induction false} MoreFuel(g: seq<Tree>, p: Tree, s: seq<Byte>, i: nat, n: nat, m: nat)
    requires i <= |s| && n <= m && Eval(g, p, s, i, n).Done?
    ensures Eval(g, p, s, i, m) == Eval(g, p, s, i, n)
    decreases n, p
  {
    match p
    case TRep(q) =>
      MoreFuel(g, q, s, i, n, m);
      if Eval(g, q, s, i, n).res.Ok? { MoreFuel(g, p, s, Eval(g, q, s, i, n).res.pos, n - 1, m - 1); }
    case TSeq(q1, q2) =>
      MoreFuel(g, q1, s, i, n, m);
      if Eval(g, q1, s, i, n).res.Ok? { MoreFuel(g, q2, s, Eval(g, q1, s, i, n).res.pos, n, m); }
    case TChoice(q1, q2) =>
      MoreFuel(g, q1, s, i, n, m);
      if Eval(g, q1, s, i, n).res.Fail? { MoreFuel(g, q2, s, i, n, m); }
    case TNot(q) => MoreFuel(g, q, s, i, n, m);
    case TAnd(q) => MoreFuel(g, q, s, i, n, m);
    case TBehind(q, k) => if k <= i { MoreFuel(g, q, s, i - k, n, m); }
    case TCall(k) => if k < |g| { MoreFuel(g, g[k], s, i, n - 1, m - 1); }
    case TGrammar(rules) => if |rules| > 0 { MoreFuel(rules, rules[0], s, i, n - 1, m - 1); }
    case _ =>
  }

  /** A match that ends has the result the tree means (grammar-free trees). */
  lemma {:induction false} EvalIsPeg(g: seq<Tree>, p: Tree, s: seq<Byte>, i: nat, n: nat)
    requires Wf(p) && i <= |s| && Eval(g, p, s, i, n).Done?
    ensures Eval(g, p, s, i, n).res == Peg(p, s, i)
    decreases n, p
  {
    match p
    case TRep(q) =>
      EvalIsPeg(g, q, s, i, n);
      if Peg(q, s, i).Ok? {
        var j := Peg(q, s, i).pos;
        if j == i { EmptyMatchNullable(q, s, i); }
        EvalIsPeg(g, p, s, j, n - 1);
      }
    case TSeq(q1, q2) =>
      EvalIsPeg(g, q1, s, i, n);
      if Peg(q1, s, i).Ok? { EvalIsPeg(g, q2, s, Peg(q1, s, i).pos, n); }
    case TChoice(q1, q2) =>
      EvalIsPeg(g, q1, s, i, n);
      if Peg(q1, s, i).Fail? { EvalIsPeg(g, q2, s, i, n); }
    case TNot(q) => EvalIsPeg(g, q, s, i, n);
    case TAnd(q) => EvalIsPeg(g, q, s, i, n);
    case TBehind(q, k) => if k <= i { EvalIsPeg(g, q, s, i - k, n); }
    case _ =>
  }

  // ----- the checks -----

  const MAXRULES := 250

  /** Nullability inside a grammar, rules followed at most `depth` deep. */
  predicate NullableIn(g: seq<Tree>, p: Tree, depth: nat) { CheckAux(g, p, PEnullable, depth) }

  datatype Verdict = LeftRecursive | Ret(nb: bool)

  /** Walk everything that can run before the subject advances, through at most MAXRULES rules;
      otherwise tell whether the pattern may match empty, or `nb` was set. A sub-grammar answers
      with its nullability alone, and with `nb` too if the walk is to `keep` the flag. */
  function Walk(keep: bool, g: seq<Tree>, p: Tree, passed: seq<nat>, nb: bool, depth: nat): Verdict
    decreases MAXRULES - |passed|, p
  {
    match p
    case TChar(_) => Ret(nb)
    case TSet(_) => Ret(nb)
    case TAny => Ret(nb)
    case TFalse => Ret(nb)
    case TTrue => Ret(true)
    case TBehind(_, _) => Ret(true)
    case TNot(q) => Walk(keep, g, q, passed, true, depth)
    case TAnd(q) => Walk(keep, g, q, passed, true, depth)
    case TRep(q) => Walk(keep, g, q, passed, true, depth)
    case TCall(k) =>
      if k >= |g| || |passed| >= MAXRULES then LeftRecursive
      else Walk(keep, g, g[k], passed + [k], nb, depth)
    case TSeq(q1, q2) =>
      (match Walk(keep, g, q1, passed, false, depth)
       case LeftRecursive => LeftRecursive
       case Ret(b) => if !b then Ret(nb) else Walk(keep, g, q2, passed, nb, depth))
    case TChoice(q1, q2) =>
      (match Walk(keep, g, q1, passed, nb, depth)
       case LeftRecursive => LeftRecursive
       case Ret(b) => Walk(keep, g, q2, passed, b, depth))
    case TGrammar(_) => Ret((keep && nb) || NullableIn(g, p, depth))
  }

  /** `verifyrule`: the walk that forgets the flag at a sub-grammar. */
  function VerifyRule(g: seq<Tree>, p: Tree, passed: seq<nat>, nb: bool, depth: nat): Verdict
  {
    Walk(false, g, p, passed, nb, depth)
  }

  /** `checkloops`: a loop body that may match empty; sub-grammars were checked when built. */
  predicate CheckLoops(g: seq<Tree>, p: Tree, depth: nat)
  {
    match p
    case TRep(q) => NullableIn(g, q, depth) || CheckLoops(g, q, depth)
    case TSeq(q1, q2) => CheckLoops(g, q1, depth) || CheckLoops(g, q2, depth)
    case TChoice(q1, q2) => CheckLoops(g, q1, depth) || CheckLoops(g, q2, depth)
    case TNot(q) => CheckLoops(g, q, depth)
    case TAnd(q) => CheckLoops(g, q, depth)
    case TBehind(q, _) => CheckLoops(g, q, depth)
    case _ => false
  }

  /** Rule `k` is called somewhere in `p`, outside sub-grammars. */
  predicate Calls(p: Tree, k: nat)
  {
    match p
    case TCall(m) => m == k
    case TRep(q) => Calls(q, k)
    case TSeq(q1, q2) => Calls(q1, k) || Calls(q2, k)
    case TChoice(q1, q2) => Calls(q1, k) || Calls(q2, k)
    case TNot(q) => Calls(q, k)
    case TAnd(q) => Calls(q, k)
    case TBehind(q, _) => Calls(q, k)
    case _ => false
  }

  /** Rules with a key: the initial rule and every rule some rule calls. */
  predicate Used(g: seq<Tree>, k: nat)
  {
    k < |g| && (k == 0 || exists m | 0 <= m < |g| :: Calls(g[m], k))
  }

  /** Every used rule passes the walk and has no empty loop. */
  predicate Accepts(keep: bool, g: seq<Tree>, depth: nat)
  {
    forall k | 0 <= k < |g| && Used(g, k) ::
      Walk(keep, g, g[k], [], false, depth).Ret? && !CheckLoops(g, g[k], depth)
  }

  /** `verifygrammar` raises no error. */
  predicate VerifyGrammar(g: seq<Tree>, depth: nat) { Accepts(false, g, depth) }

  /** What building a tree enforces: calls refer to rules (`fixonecall`), sub-grammars passed
      their own check (`newgrammar`), look-behind bodies contain no calls (`lp_behind`). With
      `keep`, sub-grammars pass the walk that keeps the flag. */
  predicate Built(keep: bool, g: seq<Tree>, p: Tree, depth: nat)
    decreases p
  {
    match p
    case TCall(k) => k < |g|
    case TRep(q) => Built(keep, g, q, depth)
    case TSeq(q1, q2) => Built(keep, g, q1, depth) && Built(keep, g, q2, depth)
    case TChoice(q1, q2) => Built(keep, g, q1, depth) && Built(keep, g, q2, depth)
    case TNot(q) => Built(keep, g, q, depth)
    case TAnd(q) => Built(keep, g, q, depth)
    case TBehind(q, _) => Built(keep, [], q, depth) && !CheckLoops([], q, depth)
    case TGrammar(rules) =>
      |rules| > 0 && Accepts(keep, rules, depth) && forall r | r in rules :: Built(keep, rules, r, depth)
    case _ => true
  }

  /** What `newgrammar` and the operators let a program build. */
  predicate Accepted(p: Tree, depth: nat) { Built(false, [], p, depth) }

  /** What they would let it build if `verifyrule` kept its flag at sub-grammars. */
  predicate AcceptedKeeping(p: Tree, depth: nat) { Built(true, [], p, depth) }

  /** The walk of the code never gets to a sub-grammar that consumes with `nb` set. */
  predicate KeepsFlag(g: seq<Tree>, p: Tree, passed: seq<nat>, nb: bool, depth: nat)
    decreases MAXRULES - |passed|, p
  {
    match p
    case TNot(q) => KeepsFlag(g, q, passed, true, depth)
    case TAnd(q) => KeepsFlag(g, q, passed, true, depth)
    case TRep(q) => KeepsFlag(g, q, passed, true, depth)
    case TCall(k) =>
      k < |g| && |passed| < MAXRULES ==> KeepsFlag(g, g[k], passed + [k], nb, depth)
    case TSeq(q1, q2) =>
      && KeepsFlag(g, q1, passed, false, depth)
      && (VerifyRule(g, q1, passed, false, depth) == Ret(true) ==> KeepsFlag(g, q2, passed, nb, depth))
    case TChoice(q1, q2) =>
      && KeepsFlag(g, q1, passed, nb, depth)
      && (match VerifyRule(g, q1, passed, nb, depth)
          case LeftRecursive => true
          case Ret(b) => KeepsFlag(g, q2, passed, b, depth))
    case TGrammar(_) => nb ==> NullableIn(g, p, depth)
    case _ => true
  }

  predicate RulesKeepFlag(g: seq<Tree>, depth: nat)
  {
    forall k | 0 <= k < |g| && Used(g, k) :: KeepsFlag(g, g[k], [], false, depth)
  }

  /** The same for every sub-grammar. */
  predicate AllKeepFlag(p: Tree, depth: nat)
  {
    match p
    case TRep(q) => AllKeepFlag(q, depth)
    case TSeq(q1, q2) => AllKeepFlag(q1, depth) && AllKeepFlag(q2, depth)
    case TChoice(q1, q2) => AllKeepFlag(q1, depth) && AllKeepFlag(q2, depth)
    case TNot(q) => AllKeepFlag(q, depth)
    case TAnd(q) => AllKeepFlag(q, depth)
    case TBehind(q, _) => AllKeepFlag(q, depth)
    case TGrammar(rules) => RulesKeepFlag(rules, depth) && forall r | r in rules :: AllKeepFlag(r, depth)
    case _ => true
  }

  // ----- soundness of the checks -----

  /** An empty match is reported nullable, whatever the depth. */
  lemma {:induction false} EmptyMatchNullableIn(g: seq<Tree>, p: Tree, s: seq<Byte>, i: nat, n: nat, depth: nat)
    requires i <= |s| && Eval(g, p, s, i, n) == Done(Ok(i))
    ensures NullableIn(g, p, depth)
    decreases n, p
  {
    match p
    case TSeq(q1, q2) =>
      EmptyMatchNullableIn(g, q1, s, i, n, depth);
      EmptyMatchNullableIn(g, q2, s, i, n, depth);
    case TChoice(q1, q2) =>
      if Eval(g, q1, s, i, n) == Done(Ok(i)) {
        EmptyMatchNullableIn(g, q1, s, i, n, depth);
      } else {
        EmptyMatchNullableIn(g, q2, s, i, n, depth);
      }
    case TCall(k) =>
      if depth > 0 { EmptyMatchNullableIn(g, g[k], s, i, n - 1, depth - 1); }
    case TGrammar(rules) =>
      if depth > 0 { EmptyMatchNullableIn(rules, rules[0], s, i, n - 1, depth - 1); }
    case _ =>
  }

  /** With `nb` set the walk answers true, since sub-grammars keep the flag. */
  lemma {:induction false} FlagReturned(g: seq<Tree>, p: Tree, passed: seq<nat>, depth: nat)
    requires Walk(true, g, p, passed, true, depth).Ret?
    ensures Walk(true, g, p, passed, true, depth) == Ret(true)
    decreases MAXRULES - |passed|, p
  {
    match p
    case TNot(q) => FlagReturned(g, q, passed, depth);
    case TAnd(q) => FlagReturned(g, q, passed, depth);
    case TRep(q) => FlagReturned(g, q, passed, depth);
    case TCall(k) => FlagReturned(g, g[k], passed + [k], depth);
    case TSeq(q1, q2) =>
      if Walk(true, g, q1, passed, false, depth) == Ret(true) { FlagReturned(g, q2, passed, depth); }
    case TChoice(q1, q2) =>
      FlagReturned(g, q1, passed, depth);
      FlagReturned(g, q2, passed, depth);
    case _ =>
  }

  /** If the pattern can match empty, the walk says so. */
  lemma {:induction false} EmptyMatchVerdict(g: seq<Tree>, p: Tree, passed: seq<nat>, nb: bool, depth: nat,
                                             s: seq<Byte>, i: nat, n: nat)
    requires i <= |s| && Eval(g, p, s, i, n) == Done(Ok(i))
    requires Walk(true, g, p, passed, nb, depth).Ret?
    ensures Walk(true, g, p, passed, nb, depth) == Ret(true)
    decreases n, p
  {
    match p
    case TNot(q) => FlagReturned(g, q, passed, depth);
    case TAnd(q) => FlagReturned(g, q, passed, depth);
    case TRep(q) => FlagReturned(g, q, passed, depth);
    case TCall(k) => EmptyMatchVerdict(g, g[k], passed + [k], nb, depth, s, i, n - 1);
    case TSeq(q1, q2) =>
      EmptyMatchVerdict(g, q1, passed, false, depth, s, i, n);
      EmptyMatchVerdict(g, q2, passed, nb, depth, s, i, n);
    case TChoice(q1, q2) =>
      if Eval(g, q1, s, i, n) == Done(Ok(i)) {
        EmptyMatchVerdict(g, q1, passed, nb, depth, s, i, n);
        FlagReturned(g, q2, passed, depth);
      } else {
        EmptyMatchVerdict(g, q2, passed, Walk(true, g, q1, passed, nb, depth).nb, depth, s, i, n);
      }
    case TGrammar(rules) => EmptyMatchNullableIn(g, p, s, i, n, depth);
    case _ =>
  }

  // ----- termination -----

  /** How deep sub-grammars nest. */
  function Nesting(p: Tree): nat
  {
    match p
    case TRep(q) => Nesting(q)
    case TSeq(q1, q2) => Max(Nesting(q1), Nesting(q2))
    case TChoice(q1, q2) => Max(Nesting(q1), Nesting(q2))
    case TNot(q) => Nesting(q)
    case TAnd(q) => Nesting(q)
    case TBehind(q, _) => Nesting(q)
    case TGrammar(rules) => 1 + NestingOf(rules)
    case _ => 0
  }

  function NestingOf(rules: seq<Tree>): (n: nat)
    ensures forall r | r in rules :: Nesting(r) <= n
  {
    if rules == [] then 0 else Max(Nesting(rules[0]), NestingOf(rules[1..]))
  }

  function Max(a: nat, b: nat): nat { if a < b then b else a }

  /** A grammar whose matches are to end. */
  ghost predicate Good(g: seq<Tree>, depth: nat, h: nat)
  {
    && Accepts(true, g, depth)
    && forall k | 0 <= k < |g| :: Fits(g, g[k], depth, h)
  }

  /** A pattern inside it. */
  ghost predicate Fits(g: seq<Tree>, p: Tree, depth: nat, h: nat)
  {
    Built(true, g, p, depth) && Nesting(p) <= h
  }

  /** It calls used rules only. */
  ghost predicate CallsUsed(g: seq<Tree>, p: Tree)
  {
    forall k | Calls(p, k) :: Used(g, k)
  }

  lemma EndsSeq(g: seq<Tree>, q1: Tree, q2: Tree, s: seq<Byte>, i: nat, n: nat)
    requires i <= |s| && Eval(g, q1, s, i, n).Done?
    requires Eval(g, q1, s, i, n).res.Ok? ==> Ends(g, q2, s, Eval(g, q1, s, i, n).res.pos)
    ensures Ends(g, TSeq(q1, q2), s, i)
  {
    if Eval(g, q1, s, i, n).res.Ok? {
      var j := Eval(g, q1, s, i, n).res.pos;
      var m: nat :| Eval(g, q2, s, j, m).Done?;
      MoreFuel(g, q1, s, i, n, n + m);
      MoreFuel(g, q2, s, j, m, n + m);
      assert Eval(g, TSeq(q1, q2), s, i, n + m).Done?;
    } else {
      assert Eval(g, TSeq(q1, q2), s, i, n).Done?;
    }
  }

  lemma EndsChoice(g: seq<Tree>, q1: Tree, q2: Tree, s: seq<Byte>, i: nat)
    requires i <= |s| && Ends(g, q1, s, i) && Ends(g, q2, s, i)
    ensures Ends(g, TChoice(q1, q2), s, i)
  {
    var n: nat :| Eval(g, q1, s, i, n).Done?;
    var m: nat :| Eval(g, q2, s, i, m).Done?;
    MoreFuel(g, q1, s, i, n, n + m);
    MoreFuel(g, q2, s, i, m, n + m);
    assert Eval(g, TChoice(q1, q2), s, i, n + m).Done?;
  }

  lemma EndsRep(g: seq<Tree>, q: Tree, s: seq<Byte>, i: nat, n: nat)
    requires i <= |s| && Eval(g, q, s, i, n).Done?
    requires Eval(g, q, s, i, n).res.Ok? ==> Ends(g, TRep(q), s, Eval(g, q, s, i, n).res.pos)
    ensures Ends(g, TRep(q), s, i)
  {
    if Eval(g, q, s, i, n).res.Ok? {
      var j := Eval(g, q, s, i, n).res.pos;
      var m: nat :| Eval(g, TRep(q), s, j, m).Done?;
      MoreFuel(g, q, s, i, n, n + m + 1);
      MoreFuel(g, TRep(q), s, j, m, n + m);
      assert Eval(g, TRep(q), s, i, n + m + 1).Done?;
    } else {
      assert Eval(g, TRep(q), s, i, n).Done?;
    }
  }

  lemma EndsPredicate(g: seq<Tree>, q: Tree, s: seq<Byte>, i: nat)
    requires i <= |s| && Ends(g, q, s, i)
    ensures Ends(g, TNot(q), s, i) && Ends(g, TAnd(q), s, i)
    ensures forall k: nat, j: nat | j <= |s| && j == i + k :: Ends(g, TBehind(q, k), s, j)
  {
    var n: nat :| Eval(g, q, s, i, n).Done?;
    assert Eval(g, TNot(q), s, i, n).Done?;
    assert Eval(g, TAnd(q), s, i, n).Done?;
    forall k: nat, j: nat | j <= |s| && j == i + k ensures Ends(g, TBehind(q, k), s, j) {
      assert Eval(g, TBehind(q, k), s, j, n).Done?;
    }
  }

  lemma EndsCall(g: seq<Tree>, k: nat, s: seq<Byte>, i: nat)
    requires i <= |s| && k < |g| && Ends(g, g[k], s, i)
    ensures Ends(g, TCall(k), s, i)
  {
    var n: nat :| Eval(g, g[k], s, i, n).Done?;
    assert Eval(g, TCall(k), s, i, n + 1).Done?;
  }

  lemma EndsGrammar(g: seq<Tree>, rules: seq<Tree>, s: seq<Byte>, i: nat)
    requires i <= |s| && |rules| > 0 && Ends(rules, rules[0], s, i)
    ensures Ends(g, TGrammar(rules), s, i)
  {
    var n: nat :| Eval(rules, rules[0], s, i, n).Done?;
    assert Eval(g, TGrammar(rules), s, i, n + 1).Done?;
  }

  lemma EndsAtOnce(g: seq<Tree>, p: Tree, s: seq<Byte>, i: nat)
    requires i <= |s| && Eval(g, p, s, i, 0).Done?
    ensures Ends(g, p, s, i)
  {
  }

  /** A pattern without calls (as in look-behind) ends. */
  lemma {:induction false} EndsWithoutCalls(p: Tree, depth: nat, h: nat, s: seq<Byte>, i: nat)
    requires i <= |s| && Fits([], p, depth, h) && !CheckLoops([], p, depth)
    ensures Ends([], p, s, i)
    decreases h, 1, p, |s| - i
  {
    match p
    case TRep(q) =>
      EndsWithoutCalls(q, depth, h, s, i);
      var n: nat :| Eval([], q, s, i, n).Done?;
      if Eval([], q, s, i, n).res.Ok? {
        var j := Eval([], q, s, i, n).res.pos;
        if j == i { EmptyMatchNullableIn([], q, s, i, n, depth); }
        EndsWithoutCalls(p, depth, h, s, j);
      }
      EndsRep([], q, s, i, n);
    case TSeq(q1, q2) =>
      EndsWithoutCalls(q1, depth, h, s, i);
      var n: nat :| Eval([], q1, s, i, n).Done?;
      if Eval([], q1, s, i, n).res.Ok? { EndsWithoutCalls(q2, depth, h, s, Eval([], q1, s, i, n).res.pos); }
      EndsSeq([], q1, q2, s, i, n);
    case TChoice(q1, q2) =>
      EndsWithoutCalls(q1, depth, h, s, i);
      EndsWithoutCalls(q2, depth, h, s, i);
      EndsChoice([], q1, q2, s, i);
    case TNot(q) => EndsWithoutCalls(q, depth, h, s, i); EndsPredicate([], q, s, i);
    case TAnd(q) => EndsWithoutCalls(q, depth, h, s, i); EndsPredicate([], q, s, i);
    case TBehind(q, k) =>
      if k <= i {
        EndsWithoutCalls(q, depth, h, s, i - k);
        EndsPredicate([], q, s, i - k);
      } else {
        EndsAtOnce([], p, s, i);
      }
    case TGrammar(rules) => EndsSubGrammar([], rules, depth, h, s, i);
    case _ => EndsAtOnce([], p, s, i);
  }

  lemma {:induction false} EnvironmentIrrelevant(g: seq<Tree>, p: Tree, depth: nat, s: seq<Byte>, i: nat, n: nat)
    requires i <= |s| && Built(true, [], p, depth)
    ensures Eval(g, p, s, i, n) == Eval([], p, s, i, n)
    decreases n, p
  {
    match p
    case TRep(q) =>
      EnvironmentIrrelevant(g, q, depth, s, i, n);
      var r := Eval(g, q, s, i, n);
      if r.Done? && r.res.Ok? && n > 0 { EnvironmentIrrelevant(g, p, depth, s, r.res.pos, n - 1); }
    case TSeq(q1, q2) =>
      EnvironmentIrrelevant(g, q1, depth, s, i, n);
      var r := Eval(g, q1, s, i, n);
      if r.Done? && r.res.Ok? { EnvironmentIrrelevant(g, q2, depth, s, r.res.pos, n); }
    case TChoice(q1, q2) =>
      EnvironmentIrrelevant(g, q1, depth, s, i, n);
      EnvironmentIrrelevant(g, q2, depth, s, i, n);
    case TNot(q) => EnvironmentIrrelevant(g, q, depth, s, i, n);
    case TAnd(q) => EnvironmentIrrelevant(g, q, depth, s, i, n);
    case TBehind(q, k) => if k <= i { EnvironmentIrrelevant(g, q, depth, s, i - k, n); }
    case _ =>
  }

  lemma {:induction false} CallInBounds(g: seq<Tree>, p: Tree, depth: nat, k: nat)
    requires Built(true, g, p, depth) && Calls(p, k)
    ensures k < |g|
    decreases p
  {
    match p
    case TRep(q) => CallInBounds(g, q, depth, k);
    case TSeq(q1, q2) =>
      if Calls(q1, k) { CallInBounds(g, q1, depth, k); } else { CallInBounds(g, q2, depth, k); }
    case TChoice(q1, q2) =>
      if Calls(q1, k) { CallInBounds(g, q1, depth, k); } else { CallInBounds(g, q2, depth, k); }
    case TNot(q) => CallInBounds(g, q, depth, k);
    case TAnd(q) => CallInBounds(g, q, depth, k);
    case TBehind(q, _) => CallInBounds([], q, depth, k);
    case _ =>
  }

  lemma RuleCallsUsed(g: seq<Tree>, depth: nat, h: nat, m: nat)
    requires Good(g, depth, h) && m < |g|
    ensures CallsUsed(g, g[m])
  {
    forall k | Calls(g[m], k) ensures Used(g, k) {
      assert Fits(g, g[m], depth, h);
      CallInBounds(g, g[m], depth, k);
    }
  }

  /** The sub-grammar starts at its first rule. */
  lemma {:induction false} EndsSubGrammar(g: seq<Tree>, rules: seq<Tree>, depth: nat, h: nat, s: seq<Byte>, i: nat)
    requires i <= |s| && Fits(g, TGrammar(rules), depth, h)
    ensures Ends(g, TGrammar(rules), s, i)
    decreases h, 0
  {
    forall k | 0 <= k < |rules| ensures Fits(rules, rules[k], depth, h - 1) {
      assert rules[k] in rules;
    }
    assert Used(rules, 0);
    RuleCallsUsed(rules, depth, h - 1, 0);
    EndsVerified(rules, rules[0], [], false, depth, h - 1, s, i);
    EndsGrammar(g, rules, s, i);
  }

  lemma EndsBehind(g: seq<Tree>, q: Tree, k: nat, depth: nat, h: nat, s: seq<Byte>, i: nat)
    requires i <= |s| && Fits(g, TBehind(q, k), depth, h)
    ensures Ends(g, TBehind(q, k), s, i)
    decreases h, 2
  {
    if k <= i {
      EndsWithoutCalls(q, depth, h, s, i - k);
      var n: nat :| Eval([], q, s, i - k, n).Done?;
      EnvironmentIrrelevant(g, q, depth, s, i - k, n);
      assert Ends(g, q, s, i - k);
      EndsPredicate(g, q, s, i - k);
    } else {
      EndsAtOnce(g, TBehind(q, k), s, i);
    }
  }

  /** A pattern that passed the walk with rules `passed` behind it ends: either the subject
      advances, or another rule is entered, or the pattern gets smaller. */
  lemma {:induction false} EndsVerified(g: seq<Tree>, p: Tree, passed: seq<nat>, nb: bool,
                                        depth: nat, h: nat, s: seq<Byte>, i: nat)
    requires i <= |s| && |passed| <= MAXRULES
    requires Good(g, depth, h) && Fits(g, p, depth, h) && CallsUsed(g, p) && !CheckLoops(g, p, depth)
    requires Walk(true, g, p, passed, nb, depth).Ret?
    ensures Ends(g, p, s, i)
    decreases h, 3, |s| - i, MAXRULES - |passed|, p
  {
    match p
    case TRep(q) =>
      EndsVerified(g, q, passed, true, depth, h, s, i);
      var n: nat :| Eval(g, q, s, i, n).Done?;
      if Eval(g, q, s, i, n).res.Ok? {
        var j := Eval(g, q, s, i, n).res.pos;
        if j == i { EmptyMatchNullableIn(g, q, s, i, n, depth); }
        EndsAnywhere(g, p, depth, h, s, j);
      }
      EndsRep(g, q, s, i, n);
    case TSeq(q1, q2) =>
      EndsVerified(g, q1, passed, false, depth, h, s, i);
      var n: nat :| Eval(g, q1, s, i, n).Done?;
      if Eval(g, q1, s, i, n).res.Ok? {
        var j := Eval(g, q1, s, i, n).res.pos;
        if j == i {
          EmptyMatchVerdict(g, q1, passed, false, depth, s, i, n);
          EndsVerified(g, q2, passed, nb, depth, h, s, i);
        } else {
          EndsAnywhere(g, q2, depth, h, s, j);
        }
      }
      EndsSeq(g, q1, q2, s, i, n);
    case TChoice(q1, q2) =>
      EndsVerified(g, q1, passed, nb, depth, h, s, i);
      EndsVerified(g, q2, passed, Walk(true, g, q1, passed, nb, depth).nb, depth, h, s, i);
      EndsChoice(g, q1, q2, s, i);
    case TNot(q) => EndsVerified(g, q, passed, true, depth, h, s, i); EndsPredicate(g, q, s, i);
    case TAnd(q) => EndsVerified(g, q, passed, true, depth, h, s, i); EndsPredicate(g, q, s, i);
    case TBehind(q, k) => EndsBehind(g, q, k, depth, h, s, i);
    case TCall(k) =>
      assert Calls(p, k);
      assert Fits(g, g[k], depth, h);
      RuleCallsUsed(g, depth, h, k);
      EndsVerified(g, g[k], passed + [k], nb, depth, h, s, i);
      EndsCall(g, k, s, i);
    case TGrammar(rules) => EndsSubGrammar(g, rules, depth, h, s, i);
    case _ => EndsAtOnce(g, p, s, i);
  }

  /** Any part of a good grammar ends, wherever it starts. */
  lemma {:induction false} EndsAnywhere(g: seq<Tree>, p: Tree, depth: nat, h: nat, s: seq<Byte>, i: nat)
    requires i <= |s| && Good(g, depth, h) && Fits(g, p, depth, h) && CallsUsed(g, p) && !CheckLoops(g, p, depth)
    ensures Ends(g, p, s, i)
    decreases h, 3, |s| - i, MAXRULES + 1, p
  {
    match p
    case TRep(q) =>
      EndsAnywhere(g, q, depth, h, s, i);
      var n: nat :| Eval(g, q, s, i, n).Done?;
      if Eval(g, q, s, i, n).res.Ok? {
        var j := Eval(g, q, s, i, n).res.pos;
        if j == i { EmptyMatchNullableIn(g, q, s, i, n, depth); }
        EndsAnywhere(g, p, depth, h, s, j);
      }
      EndsRep(g, q, s, i, n);
    case TSeq(q1, q2) =>
      EndsAnywhere(g, q1, depth, h, s, i);
      var n: nat :| Eval(g, q1, s, i, n).Done?;
      if Eval(g, q1, s, i, n).res.Ok? { EndsAnywhere(g, q2, depth, h, s, Eval(g, q1, s, i, n).res.pos); }
      EndsSeq(g, q1, q2, s, i, n);
    case TChoice(q1, q2) =>
      EndsAnywhere(g, q1, depth, h, s, i);
      EndsAnywhere(g, q2, depth, h, s, i);
      EndsChoice(g, q1, q2, s, i);
    case TNot(q) => EndsAnywhere(g, q, depth, h, s, i); EndsPredicate(g, q, s, i);
    case TAnd(q) => EndsAnywhere(g, q, depth, h, s, i); EndsPredicate(g, q, s, i);
    case TBehind(q, k) => EndsBehind(g, q, k, depth, h, s, i);
    case TCall(k) =>
      assert Calls(p, k);
      assert Fits(g, g[k], depth, h);
      RuleCallsUsed(g, depth, h, k);
      EndsVerified(g, g[k], [], false, depth, h, s, i);
      EndsCall(g, k, s, i);
    case TGrammar(rules) => EndsSubGrammar(g, rules, depth, h, s, i);
    case _ => EndsAtOnce(g, p, s, i);
  }

  /** Main theorem: a grammar matches in finite time on every subject from every position, if the
      check accepts it and would accept it with the flag kept at sub-grammars. */
  lemma {:induction false} AcceptedGrammarEnds(g: seq<Tree>, depth: nat, s: seq<Byte>, i: nat)
    requires i <= |s| && AcceptedKeeping(TGrammar(g), depth)
    ensures Ends([], TGrammar(g), s, i)
    ensures Accepted(TGrammar(g), depth)
  {
    EndsSubGrammar([], g, depth, Nesting(TGrammar(g)), s, i);
    KeepingBuildsLess([], TGrammar(g), depth);
  }

  /** The answers of the two walks: the one that keeps the flag raises more errors and answers true more often. */
  predicate Stricter(kept: Verdict, code: Verdict)
  {
    kept.Ret? ==> code.Ret? && (code.nb ==> kept.nb)
  }

  lemma {:induction false} KeepingStricter(g: seq<Tree>, p: Tree, passed: seq<nat>, nb: bool, b: bool, depth: nat)
    requires b ==> nb
    ensures Stricter(Walk(true, g, p, passed, nb, depth), Walk(false, g, p, passed, b, depth))
    decreases MAXRULES - |passed|, p
  {
    match p
    case TNot(q) => KeepingStricter(g, q, passed, true, true, depth);
    case TAnd(q) => KeepingStricter(g, q, passed, true, true, depth);
    case TRep(q) => KeepingStricter(g, q, passed, true, true, depth);
    case TCall(k) =>
      if k < |g| && |passed| < MAXRULES { KeepingStricter(g, g[k], passed + [k], nb, b, depth); }
    case TSeq(q1, q2) =>
      KeepingStricter(g, q1, passed, false, false, depth);
      KeepingStricter(g, q2, passed, nb, b, depth);
      if nb && Walk(true, g, p, passed, nb, depth).Ret? { FlagReturned(g, p, passed, depth); }
    case TChoice(q1, q2) =>
      KeepingStricter(g, q1, passed, nb, b, depth);
      var r, t := Walk(true, g, q1, passed, nb, depth), Walk(false, g, q1, passed, b, depth);
      if r.Ret? { KeepingStricter(g, q2, passed, r.nb, t.nb, depth); }
    case _ =>
  }

  /** What the walk that keeps the flag lets through, the code lets through. */
  lemma {:induction false} KeepingBuildsLess(g: seq<Tree>, p: Tree, depth: nat)
    requires Built(true, g, p, depth)
    ensures Built(false, g, p, depth)
    decreases p
  {
    match p
    case TRep(q) => KeepingBuildsLess(g, q, depth);
    case TSeq(q1, q2) => KeepingBuildsLess(g, q1, depth); KeepingBuildsLess(g, q2, depth);
    case TChoice(q1, q2) => KeepingBuildsLess(g, q1, depth); KeepingBuildsLess(g, q2, depth);
    case TNot(q) => KeepingBuildsLess(g, q, depth);
    case TAnd(q) => KeepingBuildsLess(g, q, depth);
    case TBehind(q, _) => KeepingBuildsLess([], q, depth);
    case TGrammar(rules) =>
      forall k | 0 <= k < |rules| && Used(rules, k) ensures Walk(false, rules, rules[k], [], false, depth).Ret? {
        KeepingStricter(rules, rules[k], [], false, false, depth);
      }
      forall r | r in rules ensures Built(false, rules, r, depth) { KeepingBuildsLess(rules, r, depth); }
    case _ =>
  }

  /** Where the code drops no flag, both walks are the same. */
  lemma {:induction false} WalksAgree(g: seq<Tree>, p: Tree, passed: seq<nat>, nb: bool, depth: nat)
    requires KeepsFlag(g, p, passed, nb, depth)
    ensures Walk(true, g, p, passed, nb, depth) == VerifyRule(g, p, passed, nb, depth)
    decreases MAXRULES - |passed|, p
  {
    match p
    case TNot(q) => WalksAgree(g, q, passed, true, depth);
    case TAnd(q) => WalksAgree(g, q, passed, true, depth);
    case TRep(q) => WalksAgree(g, q, passed, true, depth);
    case TCall(k) =>
      if k < |g| && |passed| < MAXRULES { WalksAgree(g, g[k], passed + [k], nb, depth); }
    case TSeq(q1, q2) =>
      WalksAgree(g, q1, passed, false, depth);
      if VerifyRule(g, q1, passed, false, depth) == Ret(true) { WalksAgree(g, q2, passed, nb, depth); }
    case TChoice(q1, q2) =>
      WalksAgree(g, q1, passed, nb, depth);
      var r := VerifyRule(g, q1, passed, nb, depth);
      if r.Ret? { WalksAgree(g, q2, passed, r.nb, depth); }
    case _ =>
  }

  lemma {:induction false} KeptIsBuilt(g: seq<Tree>, p: Tree, depth: nat)
    requires Built(false, g, p, depth) && AllKeepFlag(p, depth)
    ensures Built(true, g, p, depth)
    decreases p
  {
    match p
    case TRep(q) => KeptIsBuilt(g, q, depth);
    case TSeq(q1, q2) => KeptIsBuilt(g, q1, depth); KeptIsBuilt(g, q2, depth);
    case TChoice(q1, q2) => KeptIsBuilt(g, q1, depth); KeptIsBuilt(g, q2, depth);
    case TNot(q) => KeptIsBuilt(g, q, depth);
    case TAnd(q) => KeptIsBuilt(g, q, depth);
    case TBehind(q, _) => KeptIsBuilt([], q, depth);
    case TGrammar(rules) =>
      forall k | 0 <= k < |rules| && Used(rules, k) ensures Walk(true, rules, rules[k], [], false, depth).Ret? {
        WalksAgree(rules, rules[k], [], false, depth);
      }
      forall r | r in rules ensures Built(true, rules, r, depth) { KeptIsBuilt(rules, r, depth); }
    case _ =>
  }

  /** An accepted grammar ends if the check never drops its flag at a sub-grammar. */
  lemma {:induction false} FlagKeptEnds(g: seq<Tree>, depth: nat, s: seq<Byte>, i: nat)
    requires i <= |s| && Accepted(TGrammar(g), depth) && AllKeepFlag(TGrammar(g), depth)
    ensures Ends([], TGrammar(g), s, i)
  {
    KeptIsBuilt([], TGrammar(g), depth);
    AcceptedGrammarEnds(g, depth, s, i);
  }

  /** An accepted grammar without sub-grammars always ends. */
  lemma {:induction false} FlatGrammarEnds(g: seq<Tree>, depth: nat, s: seq<Byte>, i: nat)
    requires i <= |s| && Accepted(TGrammar(g), depth) && forall r | r in g :: Nesting(r) == 0
    ensures Ends([], TGrammar(g), s, i)
  {
    forall k | 0 <= k < |g| ensures KeepsFlag(g, g[k], [], false, depth) {
      FlatKeepsFlag(g, g[k], [], false, depth);
    }
    forall r | r in g ensures AllKeepFlag(r, depth) { FlatKeepsAll(r, depth); }
    FlagKeptEnds(g, depth, s, i);
  }

  lemma {:induction false} FlatKeepsFlag(g: seq<Tree>, p: Tree, passed: seq<nat>, nb: bool, depth: nat)
    requires Nesting(p) == 0 && forall r | r in g :: Nesting(r) == 0
    ensures KeepsFlag(g, p, passed, nb, depth)
    decreases MAXRULES - |passed|, p
  {
    match p
    case TNot(q) => FlatKeepsFlag(g, q, passed, true, depth);
    case TAnd(q) => FlatKeepsFlag(g, q, passed, true, depth);
    case TRep(q) => FlatKeepsFlag(g, q, passed, true, depth);
    case TCall(k) =>
      if k < |g| && |passed| < MAXRULES { FlatKeepsFlag(g, g[k], passed + [k], nb, depth); }
    case TSeq(q1, q2) =>
      FlatKeepsFlag(g, q1, passed, false, depth);
      FlatKeepsFlag(g, q2, passed, nb, depth);
    case TChoice(q1, q2) =>
      FlatKeepsFlag(g, q1, passed, nb, depth);
      var r := VerifyRule(g, q1, passed, nb, depth);
      if r.Ret? { FlatKeepsFlag(g, q2, passed, r.nb, depth); }
    case _ =>
  }

  lemma {:induction false} FlatKeepsAll(p: Tree, depth: nat)
    requires Nesting(p) == 0
    ensures AllKeepFlag(p, depth)
  {
    match p
    case TRep(q) => FlatKeepsAll(q, depth);
    case TSeq(q1, q2) => FlatKeepsAll(q1, depth); FlatKeepsAll(q2, depth);
    case TChoice(q1, q2) => FlatKeepsAll(q1, depth); FlatKeepsAll(q2, depth);
    case TNot(q) => FlatKeepsAll(q, depth);
    case TAnd(q) => FlatKeepsAll(q, depth);
    case TBehind(q, _) => FlatKeepsAll(q, depth);
    case _ =>
  }

  /** The condition of `AcceptedGrammarEnds` is the weaker one: S <- (&'a' / R) 'c' with R <- 'b'
      drops a flag, and passes both walks. */
  lemma {:induction false} DroppedButKept(depth: nat)
    requires depth > 0
    ensures var g := [TSeq(TChoice(TAnd(TChar(97)), TGrammar([TChar(98)])), TChar(99))];
            AcceptedKeeping(TGrammar(g), depth) && Accepted(TGrammar(g), depth) && !AllKeepFlag(TGrammar(g), depth)
  {
    var b, c, andA: Tree := TChar(98), TChar(99), TAnd(TChar(97));
    var sub := TGrammar([b]);
    var g := [TSeq(TChoice(andA, sub), c)];
    assert g[0] == TSeq(TChoice(andA, sub), c) && Used(g, 0);
    SubBuilt(b, depth);
    assert Built(true, g, TChar(97), depth) && !CheckLoops(g, TChar(97), depth);
    assert Built(true, g, andA, depth) && !CheckLoops(g, andA, depth);
    assert Built(true, g, sub, depth) && !CheckLoops(g, sub, depth);
    assert Built(true, g, TChoice(andA, sub), depth) && !CheckLoops(g, TChoice(andA, sub), depth);
    assert Built(true, g, g[0], depth) && !CheckLoops(g, g[0], depth);
    assert VerifyRule(g, andA, [], false, depth) == Walk(true, g, andA, [], false, depth) == Ret(true);
    assert !NullableIn(g, sub, depth);
    assert Walk(true, g, TChoice(andA, sub), [], false, depth) == Ret(true);
    assert Walk(true, g, g[0], [], false, depth).Ret?;
    assert AcceptedKeeping(TGrammar(g), depth);
    KeepingBuildsLess([], TGrammar(g), depth);
    assert !KeepsFlag(g, TChoice(andA, sub), [], false, depth);
    assert !KeepsFlag(g, g[0], [], false, depth);
  }

  /** A grammar of one rule that is a character. */
  lemma {:induction false} SubBuilt(b: Tree, depth: nat)
    requires b.TChar? && depth > 0
    ensures Built(true, [], TGrammar([b]), depth) && Accepted(TGrammar([b]), depth)
    ensures !NullableIn([], TGrammar([b]), depth)
  {
    assert [b][0] == b && Walk(true, [b], b, [], false, depth) == Ret(false) && !CheckLoops([b], b, depth);
    KeepingBuildsLess([], TGrammar([b]), depth);
    assert !CheckAux([b], [b][0], PEnullable, depth - 1);
  }

  // ----- where the check is not enough -----

  /** S <- !R S, or S <- &R S, for a sub-grammar R. */
  function Endless(neg: bool, rules: seq<Tree>): seq<Tree>
  {
    [TSeq(if neg then TNot(TGrammar(rules)) else TAnd(TGrammar(rules)), TCall(0))]
  }

  /** The check accepts it for exactly the sub-grammars R that are not nullable: then R drops the
      flag that the predicate has set, and the call after it is not followed. With the flag kept it
      is never accepted. */
  lemma {:induction false} EndlessAccepted(neg: bool, rules: seq<Tree>, depth: nat)
    requires Accepted(TGrammar(rules), depth)
    ensures VerifyGrammar(Endless(neg, rules), depth) <==> !NullableIn([], TGrammar(rules), depth)
    ensures Accepted(TGrammar(Endless(neg, rules)), depth) <==> !NullableIn([], TGrammar(rules), depth)
    ensures !AcceptedKeeping(TGrammar(Endless(neg, rules)), depth)
  {
    var g, sub := Endless(neg, rules), TGrammar(rules);
    var first := if neg then TNot(sub) else TAnd(sub);
    assert g[0] == TSeq(first, TCall(0)) && Used(g, 0);
    assert NullableIn(g, sub, depth) == NullableIn([], sub, depth);
    assert Walk(false, g, sub, [], true, depth) == Ret(NullableIn(g, sub, depth));
    assert Walk(false, g, first, [], false, depth) == Ret(NullableIn(g, sub, depth));
    assert !CheckLoops(g, sub, depth) && !CheckLoops(g, TCall(0), depth) && !CheckLoops(g, first, depth);
    assert !CheckLoops(g, g[0], depth);
    assert Built(false, g, sub, depth) && Built(false, g, first, depth) && Built(false, g, TCall(0), depth);
    assert Built(false, g, g[0], depth);
    LoopFound(true, neg, rules, [], depth);
    if NullableIn(g, sub, depth) { LoopFound(false, neg, rules, [], depth); }
  }

  /** Where the predicate may pass without consuming, the walk comes back to the rule until it gives up. */
  lemma {:induction false} LoopFound(keep: bool, neg: bool, rules: seq<Tree>, passed: seq<nat>, depth: nat)
    requires (keep || NullableIn([], TGrammar(rules), depth)) && |passed| <= MAXRULES
    ensures Walk(keep, Endless(neg, rules), Endless(neg, rules)[0], passed, false, depth) == LeftRecursive
    decreases MAXRULES - |passed|
  {
    var g, sub := Endless(neg, rules), TGrammar(rules);
    var first := if neg then TNot(sub) else TAnd(sub);
    assert NullableIn(g, sub, depth) == NullableIn([], sub, depth);
    assert Walk(keep, g, first, passed, false, depth) == Ret(true);
    if |passed| < MAXRULES { LoopFound(keep, neg, rules, passed + [0], depth); }
    assert Walk(keep, g, TCall(0), passed, false, depth) == LeftRecursive;
  }

  /** The predicate fails: R ends, and matches under `!`, or fails under `&`. */
  ghost predicate Stops(neg: bool, rules: seq<Tree>, s: seq<Byte>, i: nat)
    requires i <= |s|
  {
    exists n: nat :: Eval([], TGrammar(rules), s, i, n).Done? && Eval([], TGrammar(rules), s, i, n).res.Ok? == neg
  }

  lemma {:induction false} EndlessLoops(neg: bool, rules: seq<Tree>, s: seq<Byte>, i: nat, n: nat)
    requires i <= |s| && !Stops(neg, rules, s, i)
    ensures Eval(Endless(neg, rules), Endless(neg, rules)[0], s, i, n) == OutOfFuel
    decreases n
  {
    var g, sub := Endless(neg, rules), TGrammar(rules);
    var first := if neg then TNot(sub) else TAnd(sub);
    assert g[0] == TSeq(first, TCall(0));
    assert Eval(g, sub, s, i, n) == Eval([], sub, s, i, n);
    assert Eval(g, first, s, i, n) in {OutOfFuel, Done(Ok(i))};
    if n > 0 { EndlessLoops(neg, rules, s, i, n - 1); }
  }

  /** Whatever R is, S <- !R S ends exactly where R matches, and S <- &R S exactly where R fails. */
  lemma {:induction false} EndlessEnds(neg: bool, rules: seq<Tree>, s: seq<Byte>, i: nat)
    requires i <= |s|
    ensures Ends([], TGrammar(Endless(neg, rules)), s, i) <==> Stops(neg, rules, s, i)
  {
    var g, sub := Endless(neg, rules), TGrammar(rules);
    var first := if neg then TNot(sub) else TAnd(sub);
    assert g[0] == TSeq(first, TCall(0));
    if Stops(neg, rules, s, i) {
      var n: nat :| Eval([], sub, s, i, n).Done? && Eval([], sub, s, i, n).res.Ok? == neg;
      assert Eval(g, sub, s, i, n) == Eval([], sub, s, i, n);
      assert Eval(g, first, s, i, n) == Done(Fail);
      assert Eval(g, g[0], s, i, n) == Done(Fail);
      assert Eval([], TGrammar(g), s, i, n + 1).Done?;
    } else {
      forall n: nat ensures !Eval([], TGrammar(g), s, i, n).Done? {
        if n > 0 { EndlessLoops(neg, rules, s, i, n - 1); }
      }
    }
  }

  /** Every such grammar that can be built loops wherever its predicate passes, and the condition of
      `AcceptedGrammarEnds` shuts out the whole family. */
  lemma {:induction false} EndlessBuilt(neg: bool, rules: seq<Tree>, depth: nat, s: seq<Byte>, i: nat)
    requires i <= |s| && Accepted(TGrammar(rules), depth) && !NullableIn([], TGrammar(rules), depth)
    ensures var g := TGrammar(Endless(neg, rules));
            Accepted(g, depth) && !AcceptedKeeping(g, depth) && (Ends([], g, s, i) <==> Stops(neg, rules, s, i))
  {
    EndlessAccepted(neg, rules, depth);
    EndlessEnds(neg, rules, s, i);
  }

  /** One of them: S <- !R S with R <- 'b' is accepted, and matches forever on the subject "a". */
  lemma {:induction false} EndlessExample(depth: nat)
    requires depth > 0
    ensures var g := TGrammar(Endless(true, [TChar(98)])); Accepted(g, depth) && !Ends([], g, [97], 0)
  {
    var rules, s: seq<Byte> := [TChar(98)], [97];
    SubBuilt(TChar(98), depth);
    EndlessBuilt(true, rules, depth, s, 0);
    forall n: nat ensures Eval([], TGrammar(rules), s, 0, n) in {OutOfFuel, Done(Fail)} {
      assert n > 0 ==> Eval(rules, rules[0], s, 0, n - 1) == Done(Fail);
    }
  }
}
