/** Which grammars `verifygrammar` accepts, without its walk: those whose first calls fall along a rank
    of the rules, and whose loops have bodies that consume. For grammars without sub-grammars. */
module LpegAccepts {
  import opened LpegTree
  import opened LpegAnalysis
  import opened LpegGrammar

  // ----- patterns that may pass without consuming -----

  /** The pattern may pass without consuming; predicates, look-behind and repetitions always may. Calls
      are followed at most `n` deep. */
  predicate PassesIn(g: seq<Tree>, p: Tree, n: nat)
    decreases n, p
  {
    match p
    case TTrue => true
    case TRep(_) => true
    case TNot(_) => true
    case TAnd(_) => true
    case TBehind(_, _) => true
    case TSeq(q1, q2) => PassesIn(g, q1, n) && PassesIn(g, q2, n)
    case TChoice(q1, q2) => PassesIn(g, q1, n) || PassesIn(g, q2, n)
    case TCall(k) => k < |g| && n > 0 && PassesIn(g, g[k], n - 1)
    case _ => false
  }

  ghost predicate Passes(g: seq<Tree>, p: Tree) { exists n: nat :: PassesIn(g, p, n) }

  lemma {:induction false} PassesMore(g: seq<Tree>, p: Tree, n: nat, m: nat)
    requires n <= m && PassesIn(g, p, n)
    ensures PassesIn(g, p, m)
    decreases n, p
  {
    match p
    case TSeq(q1, q2) => PassesMore(g, q1, n, m); PassesMore(g, q2, n, m);
    case TChoice(q1, q2) => if PassesIn(g, q1, n) { PassesMore(g, q1, n, m); } else { PassesMore(g, q2, n, m); }
    case TCall(k) => PassesMore(g, g[k], n - 1, m - 1);
    case _ =>
  }

  lemma {:induction false} PassesSeq(g: seq<Tree>, q1: Tree, q2: Tree)
    ensures Passes(g, TSeq(q1, q2)) <==> Passes(g, q1) && Passes(g, q2)
    ensures Passes(g, TChoice(q1, q2)) <==> Passes(g, q1) || Passes(g, q2)
  {
    if Passes(g, q1) {
      var n: nat :| PassesIn(g, q1, n);
      assert PassesIn(g, TChoice(q1, q2), n);
      if Passes(g, q2) {
        var m: nat :| PassesIn(g, q2, m);
        PassesMore(g, q1, n, n + m);
        PassesMore(g, q2, m, n + m);
        assert PassesIn(g, TSeq(q1, q2), n + m);
      }
    }
    if Passes(g, q2) {
      var m: nat :| PassesIn(g, q2, m);
      assert PassesIn(g, TChoice(q1, q2), m);
    }
    if Passes(g, TSeq(q1, q2)) {
      var n: nat :| PassesIn(g, TSeq(q1, q2), n);
      assert PassesIn(g, q1, n) && PassesIn(g, q2, n);
    }
    if Passes(g, TChoice(q1, q2)) {
      var n: nat :| PassesIn(g, TChoice(q1, q2), n);
      assert PassesIn(g, q1, n) || PassesIn(g, q2, n);
    }
  }

  lemma {:induction false} PassesCall(g: seq<Tree>, k: nat)
    requires k < |g|
    ensures Passes(g, TCall(k)) <==> Passes(g, g[k])
  {
    if Passes(g, g[k]) {
      var n: nat :| PassesIn(g, g[k], n);
      assert PassesIn(g, TCall(k), n + 1);
    }
    if Passes(g, TCall(k)) {
      var n: nat :| PassesIn(g, TCall(k), n);
      assert PassesIn(g, g[k], n - 1);
    }
  }

  /** Patterns of which the same is said whatever the rules are. */
  lemma {:induction false} PassesLeaf(g: seq<Tree>, p: Tree)
    ensures p.TTrue? || p.TRep? || p.TNot? || p.TAnd? || p.TBehind? ==> Passes(g, p)
    ensures p.TChar? || p.TSet? || p.TAny? || p.TFalse? || p.TGrammar? ==> !Passes(g, p)
  {
    if p.TTrue? || p.TRep? || p.TNot? || p.TAnd? || p.TBehind? { assert PassesIn(g, p, 0); }
  }

  /** Without predicates and look-behind. */
  predicate Bold(p: Tree)
  {
    match p
    case TRep(q) => Bold(q)
    case TSeq(q1, q2) => Bold(q1) && Bold(q2)
    case TChoice(q1, q2) => Bold(q1) && Bold(q2)
    case TNot(_) => false
    case TAnd(_) => false
    case TBehind(_, _) => false
    case TGrammar(_) => false
    case _ => true
  }

  /** In a grammar without predicates, where the match of the empty subject ends, a pattern may pass
      exactly if it matches the empty subject. */
  lemma {:induction false} PassesIsEmpty(g: seq<Tree>, p: Tree, n: nat)
    requires Bold(p) && (forall r | r in g :: Bold(r)) && Eval(g, p, [], 0, n).Done?
    ensures Passes(g, p) <==> Eval(g, p, [], 0, n) == Done(Ok(0))
    decreases n, p
  {
    PassesLeaf(g, p);
    match p
    case TRep(q) =>
      if Eval(g, q, [], 0, n) == Done(Ok(0)) { PassesIsEmpty(g, p, n - 1); }
    case TSeq(q1, q2) =>
      PassesSeq(g, q1, q2);
      PassesIsEmpty(g, q1, n);
      if Eval(g, q1, [], 0, n) == Done(Ok(0)) { PassesIsEmpty(g, q2, n); }
    case TChoice(q1, q2) =>
      PassesSeq(g, q1, q2);
      PassesIsEmpty(g, q1, n);
      if Eval(g, q1, [], 0, n) == Done(Fail) { PassesIsEmpty(g, q2, n); }
    case TCall(k) =>
      if k < |g| {
        PassesCall(g, k);
        PassesIsEmpty(g, g[k], n - 1);
      }
    case _ =>
  }

  // ----- first calls and loops -----

  /** Rule `k` can be called by `p` before the subject advances. */
  ghost predicate FirstCall(g: seq<Tree>, p: Tree, k: nat)
  {
    match p
    case TCall(m) => m == k
    case TRep(q) => FirstCall(g, q, k)
    case TNot(q) => FirstCall(g, q, k)
    case TAnd(q) => FirstCall(g, q, k)
    case TSeq(q1, q2) => FirstCall(g, q1, k) || (Passes(g, q1) && FirstCall(g, q2, k))
    case TChoice(q1, q2) => FirstCall(g, q1, k) || FirstCall(g, q2, k)
    case _ => false
  }

  lemma {:induction false} FirstCallCalls(g: seq<Tree>, p: Tree, k: nat)
    requires FirstCall(g, p, k)
    ensures Calls(p, k)
  {
    match p
    case TRep(q) => FirstCallCalls(g, q, k);
    case TNot(q) => FirstCallCalls(g, q, k);
    case TAnd(q) => FirstCallCalls(g, q, k);
    case TSeq(q1, q2) => if FirstCall(g, q1, k) { FirstCallCalls(g, q1, k); } else { FirstCallCalls(g, q2, k); }
    case TChoice(q1, q2) => if FirstCall(g, q1, k) { FirstCallCalls(g, q1, k); } else { FirstCallCalls(g, q2, k); }
    case _ =>
  }

  /** Somewhere in `p` a body that may pass is repeated. */
  ghost predicate EmptyLoop(g: seq<Tree>, p: Tree)
  {
    match p
    case TRep(q) => Passes(g, q) || EmptyLoop(g, q)
    case TSeq(q1, q2) => EmptyLoop(g, q1) || EmptyLoop(g, q2)
    case TChoice(q1, q2) => EmptyLoop(g, q1) || EmptyLoop(g, q2)
    case TNot(q) => EmptyLoop(g, q)
    case TAnd(q) => EmptyLoop(g, q)
    case TBehind(q, _) => EmptyLoop(g, q)
    case _ => false
  }

  /** The used rule `k` can call rule `m` first. */
  ghost predicate RuleCalls(g: seq<Tree>, k: nat, m: nat) { k < |g| && Used(g, k) && FirstCall(g, g[k], m) }

  /** Every first call of a used rule goes to a rule of lower rank. */
  ghost predicate Falls(g: seq<Tree>, rank: seq<nat>)
  {
    && |rank| == |g|
    && forall k: nat, m: nat | RuleCalls(g, k, m) :: k < |g| && m < |g| && rank[m] < rank[k]
  }

  /** Grammars with calls in range and without sub-grammars. */
  ghost predicate Flat(g: seq<Tree>)
  {
    && (forall r | r in g :: Nesting(r) == 0)
    && forall k: nat, m: nat | k < |g| && Calls(g[k], m) :: m < |g|
  }

  /** Every first call of `p` goes to a used rule of rank below `r`. */
  ghost predicate Below(g: seq<Tree>, rank: seq<nat>, p: Tree, r: nat)
  {
    && |rank| == |g|
    && forall m: nat | FirstCall(g, p, m) :: m < |g| && Used(g, m) && rank[m] < r
  }

  lemma {:induction false} RuleBelow(g: seq<Tree>, rank: seq<nat>, k: nat)
    requires Flat(g) && Falls(g, rank) && k < |g| && Used(g, k)
    ensures Below(g, rank, g[k], rank[k])
  {
    forall m: nat | FirstCall(g, g[k], m) ensures m < |g| && Used(g, m) && rank[m] < rank[k] {
      assert RuleCalls(g, k, m);
      FirstCallCalls(g, g[k], m);
    }
  }

  // ----- the walk -----

  /** The walk, where it ends, says exactly whether the pattern may pass, or the flag was set. */
  lemma {:induction false} WalkPasses(g: seq<Tree>, p: Tree, passed: seq<nat>, nb: bool, depth: nat)
    requires Nesting(p) == 0 && (forall r | r in g :: Nesting(r) == 0) && VerifyRule(g, p, passed, nb, depth).Ret?
    ensures VerifyRule(g, p, passed, nb, depth).nb <==> nb || Passes(g, p)
    decreases MAXRULES - |passed|, p
  {
    PassesLeaf(g, p);
    match p
    case TNot(q) => WalkPasses(g, q, passed, true, depth);
    case TAnd(q) => WalkPasses(g, q, passed, true, depth);
    case TRep(q) => WalkPasses(g, q, passed, true, depth);
    case TCall(k) =>
      PassesCall(g, k);
      WalkPasses(g, g[k], passed + [k], nb, depth);
    case TSeq(q1, q2) =>
      PassesSeq(g, q1, q2);
      WalkPasses(g, q1, passed, false, depth);
      if Passes(g, q1) { WalkPasses(g, q2, passed, nb, depth); }
    case TChoice(q1, q2) =>
      PassesSeq(g, q1, q2);
      WalkPasses(g, q1, passed, nb, depth);
      WalkPasses(g, q2, passed, VerifyRule(g, q1, passed, nb, depth).nb, depth);
    case _ =>
  }

  /** Where the first calls fall, and there is room for them, the walk raises no error. */
  lemma {:induction false} FallsWalk(g: seq<Tree>, rank: seq<nat>, p: Tree, passed: seq<nat>, nb: bool, depth: nat,
                                     r: nat)
    requires Flat(g) && Falls(g, rank) && Nesting(p) == 0 && Below(g, rank, p, r) && |passed| + r <= MAXRULES
    ensures VerifyRule(g, p, passed, nb, depth).Ret?
    decreases r, p
  {
    match p
    case TNot(q) => FallsWalk(g, rank, q, passed, true, depth, r);
    case TAnd(q) => FallsWalk(g, rank, q, passed, true, depth, r);
    case TRep(q) => FallsWalk(g, rank, q, passed, true, depth, r);
    case TCall(k) =>
      assert FirstCall(g, p, k);
      RuleBelow(g, rank, k);
      FallsWalk(g, rank, g[k], passed + [k], nb, depth, rank[k]);
    case TSeq(q1, q2) =>
      FallsWalk(g, rank, q1, passed, false, depth, r);
      WalkPasses(g, q1, passed, false, depth);
      if Passes(g, q1) { FallsWalk(g, rank, q2, passed, nb, depth, r); }
    case TChoice(q1, q2) =>
      FallsWalk(g, rank, q1, passed, nb, depth, r);
      FallsWalk(g, rank, q2, passed, VerifyRule(g, q1, passed, nb, depth).nb, depth, r);
    case _ =>
  }

  /** What the walk passes through: it ends for every rule that can be called first, one rule deeper. */
  lemma {:induction false} WalkedFirst(g: seq<Tree>, p: Tree, passed: seq<nat>, nb: bool, depth: nat, k: nat)
    requires Nesting(p) == 0 && (forall r | r in g :: Nesting(r) == 0) && VerifyRule(g, p, passed, nb, depth).Ret?
    requires FirstCall(g, p, k)
    ensures k < |g| && |passed| < MAXRULES && exists b :: VerifyRule(g, g[k], passed + [k], b, depth).Ret?
  {
    match p
    case TCall(_) => assert VerifyRule(g, g[k], passed + [k], nb, depth).Ret?;
    case TNot(q) => WalkedFirst(g, q, passed, true, depth, k);
    case TAnd(q) => WalkedFirst(g, q, passed, true, depth, k);
    case TRep(q) => WalkedFirst(g, q, passed, true, depth, k);
    case TSeq(q1, q2) =>
      WalkPasses(g, q1, passed, false, depth);
      if FirstCall(g, q1, k) {
        WalkedFirst(g, q1, passed, false, depth, k);
      } else {
        WalkedFirst(g, q2, passed, nb, depth, k);
      }
    case TChoice(q1, q2) =>
      if FirstCall(g, q1, k) {
        WalkedFirst(g, q1, passed, nb, depth, k);
      } else {
        WalkedFirst(g, q2, passed, VerifyRule(g, q1, passed, nb, depth).nb, depth, k);
      }
    case _ =>
  }

  /** Only the number of rules behind the walk decides whether it ends. */
  lemma {:induction false} WalkLength(g: seq<Tree>, p: Tree, passed: seq<nat>, other: seq<nat>, nb: bool, b: bool,
                                      depth: nat)
    requires Nesting(p) == 0 && (forall r | r in g :: Nesting(r) == 0) && |passed| == |other|
    ensures VerifyRule(g, p, passed, nb, depth).Ret? <==> VerifyRule(g, p, other, b, depth).Ret?
    decreases MAXRULES - |passed|, p
  {
    match p
    case TNot(q) => WalkLength(g, q, passed, other, true, true, depth);
    case TAnd(q) => WalkLength(g, q, passed, other, true, true, depth);
    case TRep(q) => WalkLength(g, q, passed, other, true, true, depth);
    case TCall(k) =>
      if k < |g| && |passed| < MAXRULES { WalkLength(g, g[k], passed + [k], other + [k], nb, b, depth); }
    case TSeq(q1, q2) =>
      WalkLength(g, q1, passed, other, false, false, depth);
      if VerifyRule(g, q1, passed, false, depth).Ret? {
        WalkPasses(g, q1, passed, false, depth);
        WalkPasses(g, q1, other, false, depth);
        WalkLength(g, q2, passed, other, nb, b, depth);
      }
    case TChoice(q1, q2) =>
      WalkLength(g, q1, passed, other, nb, b, depth);
      var r, t := VerifyRule(g, q1, passed, nb, depth), VerifyRule(g, q1, other, b, depth);
      if r.Ret? { WalkLength(g, q2, passed, other, r.nb, t.nb, depth); }
    case _ =>
  }

  /** The walk of rule `k` ends with `m` rules behind it. */
  predicate EndsBehind(g: seq<Tree>, k: nat, m: nat, depth: nat)
    requires k < |g|
  {
    VerifyRule(g, g[k], seq(m, _ => 0), false, depth).Ret?
  }

  /** The most rules behind which it ends. */
  function Room(g: seq<Tree>, k: nat, m: nat, depth: nat): (n: nat)
    requires k < |g|
    ensures n <= m && (EndsBehind(g, k, 0, depth) ==> EndsBehind(g, k, n, depth))
    ensures forall l: nat | l <= m && EndsBehind(g, k, l, depth) :: l <= n
    decreases m
  {
    if m == 0 || EndsBehind(g, k, m, depth) then m else Room(g, k, m - 1, depth)
  }

  /** An accepted grammar has a rank: how much room is left behind a rule. */
  lemma {:induction false} AcceptedFalls(g: seq<Tree>, depth: nat) returns (rank: seq<nat>)
    requires Flat(g) && VerifyGrammar(g, depth)
    ensures Falls(g, rank) && forall k | 0 <= k < |g| :: rank[k] <= MAXRULES
  {
    rank := seq(|g|, k requires 0 <= k < |g| => MAXRULES - Room(g, k, MAXRULES, depth));
    forall k: nat, m: nat | RuleCalls(g, k, m) ensures m < |g| && rank[m] < rank[k] {
      var n := Room(g, k, MAXRULES, depth);
      var behind := seq(n, _ => 0);
      assert Nesting(g[k]) == 0;
      assert seq(0, _ => 0) == [];
      assert EndsBehind(g, k, 0, depth);
      WalkedFirst(g, g[k], behind, false, depth, m);
      var b :| VerifyRule(g, g[m], behind + [m], b, depth).Ret?;
      WalkLength(g, g[m], behind + [m], seq(n + 1, _ => 0), b, false, depth);
      assert EndsBehind(g, m, n + 1, depth);
    }
  }

  // ----- the check for loops -----

  /** With enough depth, nullable is what may pass. */
  lemma {:induction false} NullableInExact(g: seq<Tree>, rank: seq<nat>, p: Tree, depth: nat, r: nat)
    requires Flat(g) && Falls(g, rank) && Nesting(p) == 0 && Below(g, rank, p, r) && r <= depth
    ensures NullableIn(g, p, depth) <==> Passes(g, p)
    decreases r, p
  {
    PassesLeaf(g, p);
    match p
    case TCall(k) =>
      assert FirstCall(g, p, k);
      RuleBelow(g, rank, k);
      PassesCall(g, k);
      NullableInExact(g, rank, g[k], depth - 1, rank[k]);
    case TSeq(q1, q2) =>
      PassesSeq(g, q1, q2);
      NullableInExact(g, rank, q1, depth, r);
      if Passes(g, q1) { NullableInExact(g, rank, q2, depth, r); }
    case TChoice(q1, q2) =>
      PassesSeq(g, q1, q2);
      NullableInExact(g, rank, q1, depth, r);
      NullableInExact(g, rank, q2, depth, r);
    case _ =>
  }

  /** Its calls go to used rules. */
  ghost predicate Inside(g: seq<Tree>, p: Tree)
  {
    Nesting(p) == 0 && forall m: nat | Calls(p, m) :: m < |g| && Used(g, m)
  }

  lemma {:induction false} InsideBelow(g: seq<Tree>, rank: seq<nat>, p: Tree)
    requires Inside(g, p) && |rank| == |g| && forall k | 0 <= k < |g| :: rank[k] <= MAXRULES
    ensures Below(g, rank, p, MAXRULES + 1)
  {
    forall m: nat | FirstCall(g, p, m) ensures m < |g| && Used(g, m) && rank[m] < MAXRULES + 1 {
      FirstCallCalls(g, p, m);
    }
  }

  lemma {:induction false} InsideParts(g: seq<Tree>, p: Tree)
    requires Inside(g, p)
    ensures p.TRep? || p.TNot? || p.TAnd? || p.TBehind? ==> Inside(g, p.body)
    ensures p.TSeq? || p.TChoice? ==> Inside(g, p.p1) && Inside(g, p.p2)
  {
    if p.TRep? || p.TNot? || p.TAnd? || p.TBehind? {
      forall m: nat | Calls(p.body, m) ensures m < |g| && Used(g, m) { assert Calls(p, m); }
    } else if p.TSeq? || p.TChoice? {
      forall m: nat | Calls(p.p1, m) || Calls(p.p2, m) ensures m < |g| && Used(g, m) { assert Calls(p, m); }
    }
  }

  /** `checkloops` finds exactly the bodies that may pass. */
  lemma {:induction false} LoopsExact(g: seq<Tree>, rank: seq<nat>, p: Tree, depth: nat)
    requires Flat(g) && Falls(g, rank) && (forall k | 0 <= k < |g| :: rank[k] <= MAXRULES) && depth > MAXRULES
    requires Inside(g, p)
    ensures CheckLoops(g, p, depth) <==> EmptyLoop(g, p)
  {
    InsideParts(g, p);
    match p
    case TRep(q) =>
      InsideBelow(g, rank, q);
      NullableInExact(g, rank, q, depth, MAXRULES + 1);
      LoopsExact(g, rank, q, depth);
    case TSeq(q1, q2) => LoopsExact(g, rank, q1, depth); LoopsExact(g, rank, q2, depth);
    case TChoice(q1, q2) => LoopsExact(g, rank, q1, depth); LoopsExact(g, rank, q2, depth);
    case TNot(q) => LoopsExact(g, rank, q, depth);
    case TAnd(q) => LoopsExact(g, rank, q, depth);
    case TBehind(q, _) => LoopsExact(g, rank, q, depth);
    case _ =>
  }

  // ----- exactly the innocent grammars -----

  /** What the check of a grammar is for. */
  ghost predicate Innocent(g: seq<Tree>)
  {
    && (exists rank :: Falls(g, rank) && forall k | 0 <= k < |g| :: rank[k] <= MAXRULES)
    && forall k | 0 <= k < |g| && Used(g, k) :: !EmptyLoop(g, g[k])
  }

  /** Main theorem: `verifygrammar` accepts a grammar if and only if its first calls fall along a rank of
      at most MAXRULES, and no body that may pass is repeated. */
  lemma {:induction false} AcceptedIffInnocent(g: seq<Tree>, depth: nat)
    requires Flat(g) && depth > MAXRULES
    ensures VerifyGrammar(g, depth) <==> Innocent(g)
  {
    if VerifyGrammar(g, depth) {
      var rank := AcceptedFalls(g, depth);
      forall k | 0 <= k < |g| && Used(g, k) ensures !EmptyLoop(g, g[k]) {
        RuleInside(g, k);
        LoopsExact(g, rank, g[k], depth);
      }
    } else if Innocent(g) {
      var rank :| Falls(g, rank) && forall k | 0 <= k < |g| :: rank[k] <= MAXRULES;
      forall k | 0 <= k < |g| && Used(g, k)
        ensures VerifyRule(g, g[k], [], false, depth).Ret? && !CheckLoops(g, g[k], depth)
      {
        RuleInside(g, k);
        RuleBelow(g, rank, k);
        FallsWalk(g, rank, g[k], [], false, depth, rank[k]);
        LoopsExact(g, rank, g[k], depth);
      }
    }
  }

  lemma {:induction false} RuleInside(g: seq<Tree>, k: nat)
    requires Flat(g) && k < |g|
    ensures Inside(g, g[k])
  {
    assert g[k] in g;
  }

  /** With at most MAXRULES rules any rank will do. */
  lemma {:induction false} AnyRankAccepted(g: seq<Tree>, rank: seq<nat>, depth: nat)
    requires Flat(g) && depth > MAXRULES && |g| <= MAXRULES && Falls(g, rank)
    requires forall k | 0 <= k < |g| && Used(g, k) :: !EmptyLoop(g, g[k])
    ensures VerifyGrammar(g, depth)
  {
    var low := seq(|g|, k requires 0 <= k < |g| => |Lower(rank, rank[k])|);
    forall k | 0 <= k < |g| ensures low[k] <= MAXRULES { LowerFew(rank, rank[k]); }
    forall k: nat, m: nat | RuleCalls(g, k, m) ensures m < |g| && low[m] < low[k] {
      LowerLess(rank, m, k);
    }
    assert Falls(g, low);
    AcceptedIffInnocent(g, depth);
  }

  /** The rules of rank below `r`. */
  function Lower(rank: seq<nat>, r: nat): set<nat> { set k: nat | k < |rank| && rank[k] < r }

  lemma {:induction false} LowerFew(rank: seq<nat>, r: nat)
    ensures |Lower(rank, r)| <= |rank|
  {
    Few(Lower(rank, r), |rank|);
  }

  lemma {:induction false} Few(s: set<nat>, n: nat)
    requires forall k | k in s :: k < n
    ensures |s| <= n
    decreases n
  {
    if n > 0 { Few(s - {n - 1}, n - 1); } else { assert s == {}; }
  }

  lemma {:induction false} LowerLess(rank: seq<nat>, m: nat, k: nat)
    requires m < |rank| && k < |rank| && rank[m] < rank[k]
    ensures |Lower(rank, rank[m])| < |Lower(rank, rank[k])|
  {
    var a, b := Lower(rank, rank[m]), Lower(rank, rank[k]);
    assert a <= b && m in b && m !in a;
    Smaller(a, b, m);
  }

  lemma {:induction false} Smaller(a: set<nat>, b: set<nat>, m: nat)
    requires a <= b && m in b && m !in a
    ensures |a| < |b|
  {
    var c := b - a;
    assert b == a + c && m in c;
  }

  /** The usual grammar for a search: S <- 'x' / . S */
  lemma {:induction false} SearchAccepted(depth: nat)
    ensures VerifyGrammar([TChoice(TChar(120), TSeq(TAny, TCall(0)))], depth)
  {
    var more := TSeq(TAny, TCall(0));
    var g := [TChoice(TChar(120), more)];
    assert g[0] == TChoice(TChar(120), more);
    assert VerifyRule(g, TAny, [], false, depth) == Ret(false);
    assert VerifyRule(g, more, [], false, depth) == Ret(false);
    assert VerifyRule(g, TChar(120), [], false, depth) == Ret(false);
    assert !CheckLoops(g, more, depth);
  }
}
