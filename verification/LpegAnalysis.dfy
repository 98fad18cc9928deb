/** The static analyses of lpcode.c and their soundness against the meaning of trees. */
module LpegAnalysis {
  import opened LpegTree

  datatype Pred = PEnullable | PEnofail

  /** `checkaux`: may the pattern match the empty string, or can it never fail? Calls follow the
      rules `g` of the enclosing grammar, at most `depth` rules deep; deeper calls get the
      answer that claims nothing. */
  predicate CheckAux(g: seq<Tree>, p: Tree, pred: Pred, depth: nat)
    decreases depth, p
  {
    match p
    case TChar(_) => false
    case TSet(_) => false
    case TAny => false
    case TFalse => false
    case TRep(_) => true
    case TTrue => true
    case TNot(_) => pred.PEnullable?
    case TBehind(_, _) => pred.PEnullable?
    case TAnd(q) => pred.PEnullable? || CheckAux(g, q, pred, depth)
    case TSeq(q1, q2) => CheckAux(g, q1, pred, depth) && CheckAux(g, q2, pred, depth)
    case TChoice(q1, q2) => CheckAux(g, q2, pred, depth) || CheckAux(g, q1, pred, depth)
    case TCall(k) =>
      if k < |g| && depth > 0 then CheckAux(g, g[k], pred, depth - 1) else pred.PEnullable?
    case TGrammar(rules) =>
      if |rules| > 0 && depth > 0 then CheckAux(rules, rules[0], pred, depth - 1) else pred.PEnullable?
  }

  predicate Nullable(p: Tree) { CheckAux([], p, PEnullable, 0) }

  predicate NoFail(p: Tree) { CheckAux([], p, PEnofail, 0) }

  /** `fixedlen`: the number of bytes every match consumes, or -1. */
  function FixedLen(p: Tree): int
  {
    match p
    case TChar(_) => 1
    case TSet(_) => 1
    case TAny => 1
    case TFalse => 0
    case TTrue => 0
    case TNot(_) => 0
    case TAnd(_) => 0
    case TBehind(_, _) => 0
    case TRep(_) => -1
    case TSeq(q1, q2) =>
      var n1 := FixedLen(q1);
      var n2 := FixedLen(q2);
      if n1 < 0 || n2 < 0 then -1 else n1 + n2
    case TChoice(q1, q2) =>
      var n1 := FixedLen(q1);
      if n1 != FixedLen(q2) || n1 < 0 then -1 else n1
    case TCall(_) => -1
    case TGrammar(_) => -1
  }

  /** `getfirst`: the bytes a match followed by something in `follow` can start with, and whether
      a test on that set would wrongly reject the end of the subject. */
  function GetFirst(p: Tree, follow: Charset): (Charset, bool)
  {
    match p
    case TChar(_) => (ToCharset(p).1, false)
    case TSet(_) => (ToCharset(p).1, false)
    case TAny => (ToCharset(p).1, false)
    case TTrue => (follow, true)
    case TFalse => ({}, false)
    case TChoice(q1, q2) =>
      var (cs1, e1) := GetFirst(q1, follow);
      var (cs2, e2) := GetFirst(q2, follow);
      (cs1 + cs2, e1 || e2)
    case TSeq(q1, q2) =>
      if !Nullable(q1) then GetFirst(q1, FullSet)
      else
        var (cs2, e2) := GetFirst(q2, follow);
        var (cs1, e1) := GetFirst(q1, cs2);
        (cs1, e1 && e2)
    case TRep(q) => (GetFirst(q, follow).0 + follow, true)
    case TAnd(q) =>
      var (cs, e) := GetFirst(q, follow);
      (cs * follow, e)
    case TNot(q) =>
      if ToCharset(q).0 then (FullSet - ToCharset(q).1, true) else (follow, true)
    case TBehind(_, _) => (follow, true)
    case TCall(_) => (FullSet, true)
    case TGrammar(_) => (FullSet, true)
  }

  function First(p: Tree, follow: Charset): Charset { GetFirst(p, follow).0 }

  predicate AcceptsEmpty(p: Tree) { GetFirst(p, FullSet).1 }

  /** `headfail`: failure depends on the next byte only. */
  predicate HeadFail(p: Tree)
  {
    match p
    case TChar(_) => true
    case TSet(_) => true
    case TAny => true
    case TFalse => true
    case TTrue => false
    case TRep(_) => false
    case TNot(_) => false
    case TBehind(_, _) => false
    case TAnd(q) => HeadFail(q)
    case TSeq(q1, q2) => NoFail(q2) && HeadFail(q1)
    case TChoice(q1, q2) => HeadFail(q1) && HeadFail(q2)
    case TCall(_) => false
    case TGrammar(_) => false
  }

  const MAXBEHIND := 255

  /** Trees the library lets a program build without captures and grammars: `lp_star` refuses
      nullable bodies and `lp_behind` records the fixed length of its body. */
  predicate Wf(p: Tree)
  {
    match p
    case TChar(_) => true
    case TSet(_) => true
    case TAny => true
    case TTrue => true
    case TFalse => true
    case TRep(q) => Wf(q) && !Nullable(q)
    case TSeq(q1, q2) => Wf(q1) && Wf(q2)
    case TChoice(q1, q2) => Wf(q1) && Wf(q2)
    case TNot(q) => Wf(q)
    case TAnd(q) => Wf(q)
    case TBehind(q, n) => Wf(q) && n == FixedLen(q) && n <= MAXBEHIND
    case TCall(_) => false
    case TGrammar(_) => false
  }

  // ----- soundness -----

  /** A pattern that can match without consuming is reported nullable. */
  lemma {:induction false} EmptyMatchNullable(p: Tree, s: seq<Byte>, i: nat)
    requires Wf(p) && i <= |s| && Peg(p, s, i) == Ok(i)
    ensures Nullable(p)
    decreases p
  {
    match p
    case TSeq(q1, q2) =>
      EmptyMatchNullable(q1, s, i);
      EmptyMatchNullable(q2, s, i);
    case TChoice(q1, q2) =>
      if Peg(q1, s, i).Fail? {
        EmptyMatchNullable(q2, s, i);
      } else {
        EmptyMatchNullable(q1, s, i);
      }
    case _ =>
  }

  /** The pattern with every predicate taken for one that passes. */
  function Bare(p: Tree): Tree
  {
    match p
    case TNot(_) => TTrue
    case TAnd(_) => TTrue
    case TBehind(_, _) => TTrue
    case TRep(q) => TRep(Bare(q))
    case TSeq(q1, q2) => TSeq(Bare(q1), Bare(q2))
    case TChoice(q1, q2) => TChoice(Bare(q1), Bare(q2))
    case _ => p
  }

  /** The pattern with every negation and look-behind taken for one that fails, and `&p` for p. */
  function Doubtful(p: Tree): Tree
  {
    match p
    case TNot(_) => TFalse
    case TAnd(q) => Doubtful(q)
    case TBehind(_, _) => TFalse
    case TRep(q) => TRep(Doubtful(q))
    case TSeq(q1, q2) => TSeq(Doubtful(q1), Doubtful(q2))
    case TChoice(q1, q2) => TChoice(Doubtful(q1), Doubtful(q2))
    case _ => p
  }

  /** Without calls and grammars. */
  predicate CallFree(p: Tree)
  {
    match p
    case TCall(_) => false
    case TGrammar(_) => false
    case TRep(q) => CallFree(q)
    case TSeq(q1, q2) => CallFree(q1) && CallFree(q2)
    case TChoice(q1, q2) => CallFree(q1) && CallFree(q2)
    case TNot(q) => CallFree(q)
    case TAnd(q) => CallFree(q)
    case TBehind(q, _) => CallFree(q)
    case _ => true
  }

  /** Without predicates, calls and grammars. */
  predicate Plain(p: Tree) { CallFree(p) && Bare(p) == p }

  /** Nullable are exactly the patterns that match the empty subject, if predicates pass. */
  lemma {:induction false} NullableExact(p: Tree)
    requires CallFree(p)
    ensures Nullable(p) <==> Peg(Bare(p), [], 0) == Ok(0)
  {
    match p
    case TSeq(q1, q2) => NullableExact(q1); NullableExact(q2);
    case TChoice(q1, q2) => NullableExact(q1); NullableExact(q2);
    case TRep(q) =>
    case _ =>
  }

  /** Nofail are exactly the patterns that match the empty subject, if predicates fail that can. */
  lemma {:induction false} NoFailExact(p: Tree)
    requires CallFree(p)
    ensures NoFail(p) <==> Peg(Doubtful(p), [], 0) == Ok(0)
  {
    match p
    case TSeq(q1, q2) => NoFailExact(q1); NoFailExact(q2);
    case TChoice(q1, q2) => NoFailExact(q1); NoFailExact(q2);
    case TAnd(q) => NoFailExact(q);
    case TRep(q) =>
    case _ =>
  }

  /** Without predicates both mean that the pattern matches the empty subject. */
  lemma {:induction false} PlainNullable(p: Tree)
    requires Plain(p)
    ensures Nullable(p) <==> Peg(p, [], 0) == Ok(0)
    ensures NoFail(p) <==> Peg(p, [], 0) == Ok(0)
  {
    NullableExact(p);
    NoFailExact(p);
    PlainDoubtful(p);
  }

  lemma {:induction false} PlainDoubtful(p: Tree)
    requires Plain(p)
    ensures Doubtful(p) == p
  {
    match p
    case TRep(q) => PlainDoubtful(q);
    case TSeq(q1, q2) => PlainDoubtful(q1); PlainDoubtful(q2);
    case TChoice(q1, q2) => PlainDoubtful(q1); PlainDoubtful(q2);
    case _ =>
  }

  /** A pattern that is nofail never fails. */
  lemma {:induction false} NoFailSucceeds(p: Tree, s: seq<Byte>, i: nat)
    requires Wf(p) && i <= |s| && NoFail(p)
    ensures Peg(p, s, i).Ok?
    decreases p, |s| - i
  {
    match p
    case TRep(q) =>
      if Peg(q, s, i).Ok? && Peg(q, s, i).pos > i {
        NoFailSucceeds(p, s, Peg(q, s, i).pos);
      }
    case TAnd(q) => NoFailSucceeds(q, s, i);
    case TSeq(q1, q2) =>
      NoFailSucceeds(q1, s, i);
      NoFailSucceeds(q2, s, Peg(q1, s, i).pos);
    case TChoice(q1, q2) =>
      if NoFail(q1) {
        NoFailSucceeds(q1, s, i);
      } else {
        NoFailSucceeds(q2, s, i);
      }
    case _ =>
  }

  /** Every match of a fixed-length pattern consumes exactly that many bytes. */
  lemma {:induction false} FixedLenExact(p: Tree, s: seq<Byte>, i: nat)
    requires Wf(p) && i <= |s| && FixedLen(p) >= 0 && Peg(p, s, i).Ok?
    ensures Peg(p, s, i).pos == i + FixedLen(p)
    decreases p
  {
    match p
    case TSeq(q1, q2) =>
      FixedLenExact(q1, s, i);
      FixedLenExact(q2, s, Peg(q1, s, i).pos);
    case TChoice(q1, q2) =>
      if Peg(q1, s, i).Fail? {
        FixedLenExact(q2, s, i);
      } else {
        FixedLenExact(q1, s, i);
      }
    case _ =>
  }

  /** How many bytes a pattern consumes along its first alternatives, predicates apart. */
  function Width(p: Tree): nat
  {
    match p
    case TChar(_) => 1
    case TSet(_) => 1
    case TAny => 1
    case TSeq(q1, q2) => Width(q1) + Width(q2)
    case TChoice(q1, _) => Width(q1)
    case _ => 0
  }

  /** No repetition, and the alternatives of every choice are equally wide. */
  predicate Even(p: Tree)
  {
    match p
    case TRep(_) => false
    case TCall(_) => false
    case TGrammar(_) => false
    case TSeq(q1, q2) => Even(q1) && Even(q2)
    case TChoice(q1, q2) => Even(q1) && Even(q2) && Width(q1) == Width(q2)
    case _ => true
  }

  /** A length is found exactly for patterns of that kind, and it is their width. */
  lemma {:induction false} FixedLenFound(p: Tree)
    ensures FixedLen(p) == if Even(p) then Width(p) else -1
  {
    match p
    case TSeq(q1, q2) => FixedLenFound(q1); FixedLenFound(q2);
    case TChoice(q1, q2) => FixedLenFound(q1); FixedLenFound(q2);
    case _ =>
  }

  /** If the pattern matches here, and either it consumes or the byte it leaves is in `follow`,
      then the next byte is in the first set. */
  lemma {:induction false} FirstSound(p: Tree, follow: Charset, s: seq<Byte>, i: nat)
    requires Wf(p) && i < |s| && Peg(p, s, i).Ok?
    requires Peg(p, s, i).pos > i || s[i] in follow
    ensures s[i] in First(p, follow)
    decreases p
  {
    match p
    case TSeq(q1, q2) =>
      var j := Peg(q1, s, i).pos;
      if !Nullable(q1) {
        if j == i { EmptyMatchNullable(q1, s, i); }
        FirstSound(q1, FullSet, s, i);
      } else {
        if j == i { FirstSound(q2, follow, s, i); }
        FirstSound(q1, First(q2, follow), s, i);
      }
    case TChoice(q1, q2) =>
      if Peg(q1, s, i).Fail? {
        FirstSound(q2, follow, s, i);
      } else {
        FirstSound(q1, follow, s, i);
      }
    case TRep(q) =>
      if Peg(q, s, i).Ok? && Peg(q, s, i).pos > i {
        FirstSound(q, follow, s, i);
      }
    case TAnd(q) => FirstSound(q, follow, s, i);
    case TNot(q) =>
    case _ =>
  }

  /** Whether tests may be used does not depend on the follow set. */
  lemma {:induction false} EmptyIndependent(p: Tree, fl1: Charset, fl2: Charset)
    ensures GetFirst(p, fl1).1 == GetFirst(p, fl2).1
    decreases p
  {
    match p
    case TSeq(q1, q2) =>
      if Nullable(q1) {
        EmptyIndependent(q2, fl1, fl2);
        EmptyIndependent(q1, First(q2, fl1), First(q2, fl2));
      }
    case TChoice(q1, q2) =>
      EmptyIndependent(q1, fl1, fl2);
      EmptyIndependent(q2, fl1, fl2);
    case TAnd(q) => EmptyIndependent(q, fl1, fl2);
    case _ =>
  }

  /** When tests may be used, the pattern fails at the end of the subject. */
  lemma {:induction false} FailsAtEnd(p: Tree, s: seq<Byte>)
    requires Wf(p) && !AcceptsEmpty(p)
    ensures Peg(p, s, |s|).Fail?
    decreases p
  {
    match p
    case TSeq(q1, q2) =>
      if !AcceptsEmpty(q1) {
        FailsAtEnd(q1, s);
      } else {
        EmptyIndependent(q1, First(q2, FullSet), FullSet);
        FailsAtEnd(q2, s);
      }
    case TChoice(q1, q2) =>
      FailsAtEnd(q1, s);
      FailsAtEnd(q2, s);
    case TAnd(q) => FailsAtEnd(q, s);
    case _ =>
  }

  /** A pattern that never fails starts with any byte. */
  lemma NoFailFirstFull(p: Tree)
    requires Wf(p) && NoFail(p)
    ensures First(p, FullSet) == FullSet
  {
    forall c: Byte ensures c in First(p, FullSet) {
      NoFailSucceeds(p, [c], 0);
      FirstSound(p, FullSet, [c], 0);
    }
  }

  /** Head-fail patterns: a test can always be used, and passing it guarantees success. */
  lemma {:induction false} HeadFailSound(p: Tree)
    requires Wf(p) && HeadFail(p)
    ensures !AcceptsEmpty(p)
    ensures forall s: seq<Byte>, i: nat | i < |s| && s[i] in First(p, FullSet) :: Peg(p, s, i).Ok?
    decreases p
  {
    match p
    case TSeq(q1, q2) =>
      HeadFailSound(q1);
      NoFailFirstFull(q2);
      forall s: seq<Byte>, i: nat | i < |s| && s[i] in First(p, FullSet) ensures Peg(p, s, i).Ok? {
        NoFailSucceeds(q2, s, Peg(q1, s, i).pos);
      }
    case TChoice(q1, q2) =>
      HeadFailSound(q1);
      HeadFailSound(q2);
    case TAnd(q) => HeadFailSound(q);
    case _ =>
  }

  /** The exact head-fail criterion: success is decided by the next byte. */
  lemma HeadFailExact(p: Tree, s: seq<Byte>, i: nat)
    requires Wf(p) && HeadFail(p) && i <= |s|
    ensures Peg(p, s, i).Ok? <==> i < |s| && s[i] in First(p, FullSet)
  {
    HeadFailSound(p);
    if i == |s| {
      FailsAtEnd(p, s);
    } else if Peg(p, s, i).Ok? {
      FirstSound(p, FullSet, s, i);
    }
  }
}
