/** Generated code is well laid out: instructions tile it, labels stay inside, and no chain of
    jumps is circular. This is what the peephole pass relies on. */
module LpegLayout {
  import opened LpegTree
  import opened LpegAnalysis
  import opened LpegMachine
  import opened LpegCode
  import opened LpegPeephole

  /** A label of a segment leads to an instruction of it, to its end, or to one of `exits`. */
  predicate Lands(n: nat, starts: set<nat>, exits: set<int>, t: int)
  {
    t == n || t in exits || (t >= 0 && t as nat in starts)
  }

  /** A backward jump reaches no further jump, or one that leads right behind it. */
  predicate Bounces(g: seq<Slot>, t: nat, k: nat)
  {
    t < |g| && g[t].Inst? && (g[t].code == IJmp ==> t + 1 < |g| && g[t + 1] == Offset(k + 2 - t))
  }

  predicate JumpOk(g: seq<Slot>, k: nat)
    requires k + 1 < |g| && g[k + 1].Offset?
  {
    var t := Target(g, k);
    t > k || t < 0 || (t < k && Bounces(g, t, k))
  }

  predicate SegOk(g: seq<Slot>, starts: set<nat>, exits: set<int>, k: nat)
  {
    && k < |g| && g[k].Inst? && k + SizeI(g[k].code) <= |g|
    && (k + SizeI(g[k].code) in starts || k + SizeI(g[k].code) == |g|)
    && Alone(g, starts, k)
    && (HasLabel(g[k].code) ==> g[k + 1].Offset? && Lands(|g|, starts, exits, Target(g, k)))
    && (g[k].code == IJmp ==> JumpOk(g, k))
  }

  ghost predicate Seg(g: seq<Slot>, starts: set<nat>, exits: set<int>)
  {
    && (|g| > 0 ==> 0 in starts)
    && forall k {:trigger SegOk(g, starts, exits, k)} | k in starts :: SegOk(g, starts, exits, k)
  }

  ghost function Shift(starts: set<nat>, n: nat): set<nat> { set k | k in starts :: n + k }

  ghost function Union(s1: set<nat>, n: nat, s2: set<nat>): set<nat> { s1 + Shift(s2, n) }

  lemma ShiftIn(starts: set<nat>, n: nat, k: nat)
    ensures n + k in Shift(starts, n) <==> k in starts
    ensures k < n ==> k !in Shift(starts, n)
  {
  }

  lemma SegConcat(g1: seq<Slot>, s1: set<nat>, x1: set<int>, g2: seq<Slot>, s2: set<nat>, x2: set<int>, x: set<int>)
    requires Seg(g1, s1, x1) && Seg(g2, s2, x2)
    requires forall t | t in x1 :: Lands(|g1| + |g2|, Union(s1, |g1|, s2), x, t)
    requires forall t | t in x2 :: t >= 0 && Lands(|g1| + |g2|, Union(s1, |g1|, s2), x, |g1| + t)
    ensures Seg(g1 + g2, Union(s1, |g1|, s2), x)
  {
    var g, n, s := g1 + g2, |g1|, Union(s1, |g1|, s2);
    forall k | k in s1 ensures SegOk(g, s, x, k) {
      FirstPart(g1, s1, x1, g2, s2, x, k);
    }
    forall k | k in s2 ensures SegOk(g, s, x, n + k) {
      SecondPart(g1, s1, x1, g2, s2, x2, x, k);
    }
    hide SegOk;
  }

  lemma StartsBelow(g: seq<Slot>, starts: set<nat>, exits: set<int>)
    requires Seg(g, starts, exits)
    ensures forall m | m in starts :: m < |g|
  {
    forall m | m in starts ensures m < |g| {
      assert SegOk(g, starts, exits, m);
    }
  }

  lemma {:induction false} SegAt(g: seq<Slot>, starts: set<nat>, x: set<int>, k: nat)
    requires Seg(g, starts, x) && k in starts
    ensures SegOk(g, starts, x, k)
  {
  }

  lemma SecondPart(g1: seq<Slot>, s1: set<nat>, x1: set<int>, g2: seq<Slot>, s2: set<nat>, x2: set<int>,
                   x: set<int>, k: nat)
    requires Seg(g1, s1, x1) && Seg(g2, s2, x2) && k in s2
    requires forall t | t in x2 :: t >= 0 && Lands(|g1| + |g2|, Union(s1, |g1|, s2), x, |g1| + t)
    ensures SegOk(g1 + g2, Union(s1, |g1|, s2), x, |g1| + k)
  {
    hide Seg, Shift;
    var g, n, s := g1 + g2, |g1|, Union(s1, |g1|, s2);
    StartsBelow(g1, s1, x1);
    SegAt(g2, s2, x2, k);
    var size := SizeI(g2[k].code);
    assert g[n + k] == g2[k];
    ShiftIn(s2, n, k + size);
    forall m: nat | n + k < m < n + k + size ensures m !in s {
      ShiftIn(s2, n, m - n);
    }
    if HasLabel(g[n + k].code) {
      assert g[n + k + 1] == g2[k + 1];
      var t := Target(g2, k);
      assert Target(g, n + k) == n + t;
      if t >= 0 { ShiftIn(s2, n, t); }
      if g2[k].code == IJmp && 0 <= t < k {
        assert g[n + t] == g2[t];
        if t + 1 < |g2| { assert g[n + t + 1] == g2[t + 1]; }
      }
    }
  }

  lemma SegEmpty()
    ensures Seg([], {}, {})
  {
  }

  lemma SegOne(op: Opcode, aux: int)
    requires SizeI(op) == 1 && !HasLabel(op)
    ensures Seg([Inst(op, aux)], {0}, {})
  {
    assert SegOk([Inst(op, aux)], {0}, {}, 0);
  }

  lemma SegJump(op: Opcode, aux: int, offset: int)
    requires HasLabel(op) && op != ITestSet && (op == IJmp ==> offset != 0)
    ensures Seg(Jump(op, aux, offset), {0}, {offset})
  {
    assert SegOk(Jump(op, aux, offset), {0}, {offset}, 0);
  }

  lemma SegSet(op: Opcode, cs: Charset)
    requires op == ISet || op == ISpan
    ensures Seg([Inst(op, 0)] + CharsetSlots(cs), {0}, {})
  {
    assert SegOk([Inst(op, 0)] + CharsetSlots(cs), {0}, {}, 0);
  }

  /** A test that may jump forward by `offset`. */
  lemma SegTest(cs: Charset, e: bool, offset: int) returns (starts: set<nat>, exits: set<int>)
    requires offset > 0
    ensures Seg(CodeTestSet(cs, e, offset), starts, exits) && exits <= {offset}
    ensures !e ==> |CodeTestSet(cs, e, offset)| > 0 && 0 in starts
    ensures e ==> exits == {}
  {
    var g := CodeTestSet(cs, e, offset);
    if e {
      SegEmpty();
      starts, exits := {}, {};
    } else {
      starts, exits := {0}, {offset};
      assert SegOk(g, starts, exits, 0);
    }
  }

  /** Appending an instruction that goes back to an instruction of the segment. */
  lemma SegBack(g: seq<Slot>, starts: set<nat>, exits: set<int>, op: Opcode, t: nat, x: set<int>)
    requires Seg(g, starts, exits) && (op == IJmp || op == IPartialCommit)
    requires t in starts || t == |g|
    requires op == IJmp ==> t < |g| && Bounces(g, t, |g|)
    requires forall u | u in exits :: Lands(|g| + 2, Union(starts, |g|, {0}), x, u)
    ensures Seg(g + Jump(op, 0, t - |g|), Union(starts, |g|, {0}), x)
  {
    var h := Jump(op, 0, t - |g|);
    var n, s := |g|, Union(starts, |g|, {0});
    var r := g + h;
    StartsBelow(g, starts, exits);
    BackOk(g, starts, op, t, x);
    FirstPartAll(g, starts, exits, h, x);
    hide SegOk, Lands, Bounces, Jump;
    ShiftIn({0}, n, 0);
    forall k | k in s ensures SegOk(r, s, x, k) {
      if k !in starts { ShiftIn({0}, n, k - n); }
    }
  }

  lemma FirstPartAll(g: seq<Slot>, starts: set<nat>, exits: set<int>, h: seq<Slot>, x: set<int>)
    requires Seg(g, starts, exits)
    requires forall u | u in exits :: Lands(|g| + |h|, Union(starts, |g|, {0}), x, u)
    ensures |g| > 0 ==> 0 in starts
    ensures forall k {:trigger SegOk(g + h, Union(starts, |g|, {0}), x, k)} | k in starts ::
              SegOk(g + h, Union(starts, |g|, {0}), x, k)
  {
    hide SegOk, Lands;
    forall k {:trigger SegOk(g + h, Union(starts, |g|, {0}), x, k)} | k in starts
      ensures SegOk(g + h, Union(starts, |g|, {0}), x, k)
    {
      FirstPart(g, starts, exits, h, {0}, x, k);
    }
  }

  lemma BackOk(g: seq<Slot>, starts: set<nat>, op: Opcode, t: nat, x: set<int>)
    requires (op == IJmp || op == IPartialCommit) && (t in starts || t == |g|)
    requires op == IJmp ==> t < |g| && Bounces(g, t, |g|)
    requires forall m | m in starts :: m < |g|
    ensures SegOk(g + Jump(op, 0, t - |g|), Union(starts, |g|, {0}), x, |g|)
  {
    var n, s := |g|, Union(starts, |g|, {0});
    var r := g + Jump(op, 0, t - n);
    ShiftIn({0}, n, 0);
    ShiftIn({0}, n, 1);
    assert r[n] == Inst(op, 0) && r[n + 1] == Offset(t - n);
    if op == IJmp {
      assert r[t] == g[t];
      if t + 1 < n { assert r[t + 1] == g[t + 1]; }
    }
    forall m: nat | n < m < n + SizeI(op) ensures m !in s {
      ShiftIn({0}, n, m - n);
    }
  }

  /** Of what follows it matters only that it begins with an instruction. */
  lemma FirstPart(g1: seq<Slot>, s1: set<nat>, x1: set<int>, g2: seq<Slot>, s2: set<nat>, x: set<int>, k: nat)
    requires Seg(g1, s1, x1) && (|g2| > 0 ==> 0 in s2) && k in s1
    requires forall t | t in x1 :: Lands(|g1| + |g2|, Union(s1, |g1|, s2), x, t)
    ensures SegOk(g1 + g2, Union(s1, |g1|, s2), x, k)
  {
    var g, n, s := g1 + g2, |g1|, Union(s1, |g1|, s2);
    assert SegOk(g1, s1, x1, k);
    ShiftIn(s2, n, 0);
    assert g[k] == g1[k];
    if HasLabel(g[k].code) {
      assert g[k + 1] == g1[k + 1];
    }
    if g[k].code == IJmp && 0 <= Target(g, k) < k {
      var t: nat := Target(g, k);
      assert g[t] == g1[t];
      if t + 1 < |g1| { assert g[t + 1] == g1[t + 1]; }
    }
    forall m: nat | k < m < k + SizeI(g[k].code) ensures m !in s {
      assert m !in s1;
    }
  }

  /** Every generated segment is well laid out. */
  lemma {:induction false} GenSeg(p: Tree, opt: bool, tt: Dominator, fl: Charset) returns (starts: set<nat>)
    requires Wf(p)
    ensures Seg(Gen(p, opt, tt, fl), starts, {})
    decreases p, 1
  {
    match p
    case TChar(c) => SegOne(IAny, 0); SegOne(IChar, c); starts := {0};
    case TAny => SegOne(IAny, 0); starts := {0};
    case TSet(cs) => starts := CharsetSeg(cs, tt);
    case TTrue => SegEmpty(); starts := {};
    case TFalse => SegOne(IFail, 0); starts := {0};
    case TChoice(_, _) => starts := ChoiceSeg(p, opt, fl);
    case TRep(_) => starts := RepSeg(p, opt, fl);
    case TNot(_) => starts := NotSeg(p);
    case TAnd(_) => starts := AndSeg(p, tt);
    case TBehind(q, n) =>
      var s := GenSeg(q, false, NoTest, FullSet);
      var g := Gen(q, false, NoTest, FullSet);
      if n > 0 {
        SegOne(IBehind, n);
        SegConcat([Inst(IBehind, n)], {0}, {}, g, s, {}, {});
        starts := Union({0}, 1, s);
      } else {
        assert [] + g == g;
        starts := s;
      }
    case TSeq(q1, q2) =>
      var fl1 := if NeedFollow(q1) then First(q2, fl) else FullSet;
      var tt2 := if FixedLen(q1) != 0 then NoTest else tt;
      var s1 := GenSeg(q1, false, tt, fl1);
      var s2 := GenSeg(q2, opt, tt2, fl);
      SegConcat(Gen(q1, false, tt, fl1), s1, {}, Gen(q2, opt, tt2, fl), s2, {}, {});
      starts := Union(s1, |Gen(q1, false, tt, fl1)|, s2);
  }

  lemma CharsetSeg(cs: Charset, tt: Dominator) returns (starts: set<nat>)
    ensures Seg(CodeCharset(cs, tt), starts, {})
  {
    starts := {0};
    match CharsetType(cs)
    case EmptyKind => SegOne(IFail, 0);
    case AnyKind => SegOne(IAny, 0);
    case CharKind(c) => SegOne(IAny, 0); SegOne(IChar, c);
    case SetKind => SegOne(IAny, 0); SegSet(ISet, cs);
  }

  lemma {:induction false} AndSeg(p: Tree, tt: Dominator) returns (starts: set<nat>)
    requires p.TAnd? && Wf(p)
    ensures Seg(GenAnd(p, tt), starts, {})
    decreases p, 0
  {
    hide Gen, Seg, FixedLen;
    var n := FixedLen(p.body);
    var s := GenSeg(p.body, false, tt, FullSet);
    var c := Gen(p.body, false, tt, FullSet);
    if n == 0 {
      assert c + [] == c;
      starts := s;
    } else if n > MAXBEHIND || n < 0 {
      starts := AndChoiceSeg(c, s);
    } else {
      SegOne(IBehind, n);
      SegConcat(c, s, {}, [Inst(IBehind, n)], {0}, {}, {});
      starts := Union(s, |c|, {0});
    }
  }

  /** choice L1; <p>; backcommit L2; L1: fail; L2: */
  lemma AndChoiceSeg(c: seq<Slot>, s: set<nat>) returns (starts: set<nat>)
    requires Seg(c, s, {})
    ensures Seg(Jump(IChoice, 0, 2 + |c| + 2) + c + Jump(IBackCommit, 0, 3) + [Inst(IFail, 0)], starts, {})
  {
    hide Seg;
    var choice, back := Jump(IChoice, 0, 2 + |c| + 2), Jump(IBackCommit, 0, 3);
    SegJump(IChoice, 0, 2 + |c| + 2);
    SegJump(IBackCommit, 0, 3);
    SegOne(IFail, 0);
    var l1, l2 := 2 + |c| + 2, 2 + |c| + 3;
    SegConcat(choice, {0}, {l1}, c, s, {}, {l1});
    var s1 := Union({0}, 2, s);
    SegConcat(choice + c, s1, {l1}, back, {0}, {3}, {l1, l2});
    var s2 := Union(s1, 2 + |c|, {0});
    ShiftIn({0}, l1, 0);
    SegConcat(choice + c + back, s2, {l1, l2}, [Inst(IFail, 0)], {0}, {}, {});
    starts := Union(s2, l1, {0});
  }

  lemma {:induction false} NotSeg(p: Tree) returns (starts: set<nat>)
    requires p.TNot? && Wf(p)
    ensures Seg(GenNot(p), starts, {})
    decreases p, 0
  {
    hide Gen, Seg, CodeTestSet, HeadFail, GetFirst;
    var q := p.body;
    var (cs, e) := GetFirst(q, FullSet);
    var t := TestSize(cs, e);
    if HeadFail(q) {
      var s, x := SegTest(cs, e, t + 1);
      SegOne(IFail, 0);
      SegConcat(CodeTestSet(cs, e, t + 1), s, x, [Inst(IFail, 0)], {0}, {}, {});
      starts := Union(s, t, {0});
    } else {
      var c := Gen(q, false, NoTest, FullSet);
      var l := t + 2 + |c| + 1;
      var test, choice := CodeTestSet(cs, e, l), Jump(IChoice, 0, 2 + |c| + 1);
      var s, x := SegTest(cs, e, l);
      SegJump(IChoice, 0, 2 + |c| + 1);
      var sc := GenSeg(q, false, NoTest, FullSet);
      SegOne(IFailTwice, 0);
      SegConcat(test, s, x, choice, {0}, {2 + |c| + 1}, {l});
      var s1 := Union(s, t, {0});
      SegConcat(test + choice, s1, {l}, c, sc, {}, {l});
      var s2 := Union(s1, t + 2, sc);
      SegConcat(test + choice + c, s2, {l}, [Inst(IFailTwice, 0)], {0}, {}, {});
      starts := Union(s2, t + 2 + |c|, {0});
    }
  }

  /** A label to the end of a prefix is a label to what follows it. */
  lemma EndLands(n: nat, s1: set<nat>, n1: nat, g2: seq<Slot>, s2: set<nat>, exits: set<int>)
    requires n == n1 + |g2| && Seg(g2, s2, {})
    ensures Lands(n, Union(s1, n1, s2), exits, n1)
  {
    if |g2| > 0 { ShiftIn(s2, n1, 0); }
  }

  lemma {:induction false} ChoiceSeg(p: Tree, opt: bool, fl: Charset) returns (starts: set<nat>)
    requires p.TChoice? && Wf(p)
    ensures Seg(GenChoice(p, opt, fl), starts, {})
    decreases p, 0
  {
    hide Seg, CodeTestSet;
    var p1, p2 := p.p1, p.p2;
    var (cs1, e1) := GetFirst(p1, FullSet);
    if Exclusive(p1, p2, fl) {
      starts := ExclusiveSeg(p, opt, fl);
    } else if opt && p2.TTrue? {
      var c := Gen(p1, true, NoTest, FullSet);
      var s := GenSeg(p1, true, NoTest, FullSet);
      SegJump(IPartialCommit, 0, 2);
      EndLands(2 + |c|, {0}, 2, c, s, {});
      SegConcat(Jump(IPartialCommit, 0, 2), {0}, {2}, c, s, {}, {});
      starts := Union({0}, 2, s);
    } else {
      starts := FullChoiceSeg(p, opt, fl);
    }
  }

  lemma {:induction false} ExclusiveSeg(p: Tree, opt: bool, fl: Charset) returns (starts: set<nat>)
    requires p.TChoice? && Wf(p) && Exclusive(p.p1, p.p2, fl)
    ensures Seg(GenChoice(p, opt, fl), starts, {})
    decreases p, 0, 0
  {
    hide Seg, CodeTestSet, GetFirst, HeadFail, CharsetType, Gen, GenChoice;
    var p1, p2 := p.p1, p.p2;
    var cs1 := First(p1, FullSet);
    var t := TestSize(cs1, false);
    var c1 := Gen(p1, false, TestDominator(cs1, false), fl);
    var c2 := Gen(p2, opt, NoTest, fl);
    var s1 := GenSeg(p1, false, TestDominator(cs1, false), fl);
    var s2 := GenSeg(p2, opt, NoTest, fl);
    var jmp := if p2.TTrue? then [] else Jump(IJmp, 0, 2 + |c2|);
    var l1 := t + |c1| + |jmp|;
    var test := CodeTestSet(cs1, false, l1);
    ExclusiveCode(p, opt, fl);
    var st, x := SegTest(cs1, false, l1);
    if p2.TTrue? {
      assert test + c1 + jmp + c2 == test + c1 + c2;
      starts := JoinedSeg(test, st, x, c1, s1, c2, s2);
    } else {
      starts := JumpedSeg(test, st, x, c1, s1, c2, s2);
    }
  }

  lemma ExclusiveCode(p: Tree, opt: bool, fl: Charset)
    requires p.TChoice? && Exclusive(p.p1, p.p2, fl)
    ensures var cs1 := First(p.p1, FullSet);
            var c1, c2 := Gen(p.p1, false, TestDominator(cs1, false), fl), Gen(p.p2, opt, NoTest, fl);
            var jmp := if p.p2.TTrue? then [] else Jump(IJmp, 0, 2 + |c2|);
            GenChoice(p, opt, fl) == CodeTestSet(cs1, false, TestSize(cs1, false) + |c1| + |jmp|) + c1 + jmp + c2
  {
    hide CodeTestSet, GetFirst, HeadFail, CharsetType, Gen;
  }

  /** test -> L1; <p1>; L1: <p2> */
  lemma JoinedSeg(test: seq<Slot>, st: set<nat>, x: set<int>, c1: seq<Slot>, s1: set<nat>, c2: seq<Slot>, s2: set<nat>)
    returns (starts: set<nat>)
    requires Seg(test, st, x) && x <= {|test| + |c1|} && Seg(c1, s1, {}) && Seg(c2, s2, {})
    ensures Seg(test + c1 + c2, starts, {})
  {
    hide Seg;
    var l1 := |test| + |c1|;
    SegConcat(test, st, x, c1, s1, {}, {l1});
    var sa := Union(st, |test|, s1);
    EndLands(l1 + |c2|, sa, l1, c2, s2, {});
    SegConcat(test + c1, sa, {l1}, c2, s2, {}, {});
    starts := Union(sa, l1, s2);
  }

  /** test -> L1; <p1>; jmp L2; L1: <p2>; L2: */
  lemma JumpedSeg(test: seq<Slot>, st: set<nat>, x: set<int>, c1: seq<Slot>, s1: set<nat>, c2: seq<Slot>, s2: set<nat>)
    returns (starts: set<nat>)
    requires Seg(test, st, x) && x <= {|test| + |c1| + 2} && Seg(c1, s1, {}) && Seg(c2, s2, {})
    ensures Seg(test + c1 + Jump(IJmp, 0, 2 + |c2|) + c2, starts, {})
  {
    hide Seg;
    var m := |test| + |c1|;
    var l1, l2 := m + 2, m + 2 + |c2|;
    var jmp := Jump(IJmp, 0, 2 + |c2|);
    SegConcat(test, st, x, c1, s1, {}, {l1});
    var sa := Union(st, |test|, s1);
    SegJump(IJmp, 0, 2 + |c2|);
    SegConcat(test + c1, sa, {l1}, jmp, {0}, {2 + |c2|}, {l1, l2});
    var sb := Union(sa, m, {0});
    EndLands(l2, sb, l1, c2, s2, {});
    SegConcat(test + c1 + jmp, sb, {l1, l2}, c2, s2, {}, {});
    starts := Union(sb, l1, s2);
  }

  lemma {:induction false} FullChoiceParts(p: Tree, opt: bool, fl: Charset)
    requires p.TChoice? && !Exclusive(p.p1, p.p2, fl) && !(opt && p.p2.TTrue?)
    ensures var (cs1, e1) := GetFirst(p.p1, FullSet);
            var c1 := Gen(p.p1, p.p2.TTrue?, TestDominator(cs1, e1), FullSet);
            var c2 := Gen(p.p2, opt, NoTest, fl);
            GenChoice(p, opt, fl) == CodeTestSet(cs1, e1, TestSize(cs1, e1) + 2 + |c1| + 2)
                                     + Jump(IChoice, 0, 2 + |c1| + 2)
                                     + c1 + Jump(ICommit, 0, 2 + |c2|) + c2
  {
    hide Gen, CodeTestSet, GetFirst, TestSize, Exclusive;
  }

  lemma {:induction false} FullChoiceSeg(p: Tree, opt: bool, fl: Charset) returns (starts: set<nat>)
    requires p.TChoice? && Wf(p) && !Exclusive(p.p1, p.p2, fl) && !(opt && p.p2.TTrue?)
    ensures Seg(GenChoice(p, opt, fl), starts, {})
    decreases p, 0, 0
  {
    hide Seg, CodeTestSet, Gen, GenChoice, GetFirst, Exclusive, TestSize;
    var p1, p2 := p.p1, p.p2;
    var (cs1, e1) := GetFirst(p1, FullSet);
    var t := TestSize(cs1, e1);
    var c1 := Gen(p1, p2.TTrue?, TestDominator(cs1, e1), FullSet);
    var c2 := Gen(p2, opt, NoTest, fl);
    FullChoiceParts(p, opt, fl);
    var s1 := GenSeg(p1, p2.TTrue?, TestDominator(cs1, e1), FullSet);
    var s2 := GenSeg(p2, opt, NoTest, fl);
    var l1 := t + 2 + |c1| + 2;
    var l2 := l1 + |c2|;
    var test := CodeTestSet(cs1, e1, l1);
    var choice, commit := Jump(IChoice, 0, 2 + |c1| + 2), Jump(ICommit, 0, 2 + |c2|);
    var st, x := SegTest(cs1, e1, l1);
    SegJump(IChoice, 0, 2 + |c1| + 2);
    SegJump(ICommit, 0, 2 + |c2|);
    SegConcat(test, st, x, choice, {0}, {2 + |c1| + 2}, {l1});
    var sa := Union(st, t, {0});
    SegConcat(test + choice, sa, {l1}, c1, s1, {}, {l1});
    var sb := Union(sa, t + 2, s1);
    SegConcat(test + choice + c1, sb, {l1}, commit, {0}, {2 + |c2|}, {l1, l2});
    var sc := Union(sb, t + 2 + |c1|, {0});
    EndLands(l2, sc, l1, c2, s2, {});
    SegConcat(test + choice + c1 + commit, sc, {l1, l2}, c2, s2, {}, {});
    starts := Union(sc, l1, s2);
  }

  lemma {:induction false} RepSeg(p: Tree, opt: bool, fl: Charset) returns (starts: set<nat>)
    requires p.TRep? && Wf(p)
    ensures Seg(GenRep(p, opt, fl), starts, {})
    decreases p, 0
  {
    var q := p.body;
    var (cs, e) := GetFirst(q, FullSet);
    if ToCharset(q).0 {
      SegSet(ISpan, ToCharset(q).1);
      starts := {0};
    } else if HeadFail(q) || (!e && cs !! fl) {
      starts := TestLoopSeg(p, opt, fl);
    } else {
      starts := FullLoopSeg(p, opt, fl);
    }
  }

  lemma {:induction false} TestLoopSeg(p: Tree, opt: bool, fl: Charset) returns (starts: set<nat>)
    requires p.TRep? && Wf(p) && !ToCharset(p.body).0
    requires HeadFail(p.body) || (!AcceptsEmpty(p.body) && First(p.body, FullSet) !! fl)
    ensures Seg(GenRep(p, opt, fl), starts, {})
    decreases p, 0, 0
  {
    hide Seg, Gen;
    var q := p.body;
    var cs := First(q, FullSet);
    var t := TestSize(cs, false);
    var c := Gen(q, false, TestDominator(cs, false), FullSet);
    var n := t + |c|;
    var test := CodeTestSet(cs, false, n + 2);
    assert GenRep(p, opt, fl) == test + c + Jump(IJmp, 0, -n);
    hide GenRep;
    var s := GenSeg(q, false, TestDominator(cs, false), FullSet);
    var st, x := SegTest(cs, false, n + 2);
    SegConcat(test, st, x, c, s, {}, {n + 2});
    var sa := Union(st, t, s);
    assert (test + c)[0] == test[0] && (test + c)[1] == test[1];
    SegBack(test + c, sa, {n + 2}, IJmp, 0, {});
    starts := Union(sa, n, {0});
  }

  lemma {:induction false} FullLoopSeg(p: Tree, opt: bool, fl: Charset) returns (starts: set<nat>)
    requires p.TRep? && Wf(p) && !ToCharset(p.body).0
    requires !(HeadFail(p.body) || (!AcceptsEmpty(p.body) && First(p.body, FullSet) !! fl))
    ensures Seg(GenRep(p, opt, fl), starts, {})
    decreases p, 0, 0
  {
    hide Seg, Gen, CodeTestSet;
    var q := p.body;
    var (cs, e) := GetFirst(q, FullSet);
    var t := TestSize(cs, e);
    var c := Gen(q, false, NoTest, FullSet);
    var l1 := t + 2;
    var l2 := l1 + |c| + 2;
    var test := CodeTestSet(cs, e, l2);
    var head := if opt then Jump(IPartialCommit, 0, 2) else Jump(IChoice, 0, 2 + |c| + 2);
    assert GenRep(p, opt, fl) == test + head + c + Jump(IPartialCommit, 0, -|c|);
    hide GenRep;
    var st, x := SegTest(cs, e, l2);
    var hx := if opt then 2 else 2 + |c| + 2;
    SegJump(IPartialCommit, 0, 2);
    SegJump(IChoice, 0, 2 + |c| + 2);
    SegConcat(test, st, x, head, {0}, {hx}, {l1, l2});
    var sa := Union(st, t, {0});
    var s := GenSeg(q, false, NoTest, FullSet);
    EndLands(l1 + |c|, sa, l1, c, s, {l2});
    SegConcat(test + head, sa, {l1, l2}, c, s, {}, {l2});
    var sb := Union(sa, l1, s);
    EndLands(l1 + |c|, sa, l1, c, s, {});
    SegBack(test + head + c, sb, {l2}, IPartialCommit, l1, {});
    starts := Union(sb, l1 + |c|, {0});
  }

  // ----- a complete pattern -----

  /** Rank of a jump: forward jumps by their target, backward jumps by their own place. */
  function JumpRank(code: Code, k: nat): nat
  {
    if k + 1 < |code| && OpAt(code, k) == IJmp && code[k + 1].Offset? then
      var t := Target(code, k);
      if t < k then 2 * (|code| - k) else if t <= |code| then 2 * (|code| - t) + 1 else 0
    else 0
  }

  function RankOf(code: Code): nat -> nat { (k: nat) => JumpRank(code, k) }

  /** Code of a whole pattern is ready for the peephole pass. */
  lemma PatternReady(p: Tree) returns (starts: set<nat>)
    requires Wf(p)
    ensures var code := Gen(p, false, NoTest, FullSet) + [Inst(IEnd, 0)];
      Ready(code, starts, RankOf(code))
  {
    var g := Gen(p, false, NoTest, FullSet);
    var s := GenSeg(p, false, NoTest, FullSet);
    var code := g + [Inst(IEnd, 0)];
    hide Gen, Seg, InstOk, Wf;
    starts := s + {|g|};
    EndInst(g, s);
    forall k | k in s
      ensures InstOk(code, starts, k) && (OpAt(code, k) == IJmp ==> JumpRank(code, Target(code, k)) < JumpRank(code, k))
    {
      SegInst(g, s, k);
    }
    assert forall k {:trigger InstOk(code, starts, k)} | k in starts :: InstOk(code, starts, k);
  }

  lemma SegInst(g: seq<Slot>, s: set<nat>, k: nat)
    requires Seg(g, s, {}) && k in s
    ensures var code := g + [Inst(IEnd, 0)];
      InstOk(code, s + {|g|}, k) && (OpAt(code, k) == IJmp ==> JumpRank(code, Target(code, k)) < JumpRank(code, k))
  {
    var code := g + [Inst(IEnd, 0)];
    StartsBelow(g, s, {});
    assert SegOk(g, s, {}, k);
    assert code[k] == g[k];
    if HasLabel(g[k].code) { assert code[k + 1] == g[k + 1]; }
    if g[k].code == IJmp {
      var t: nat := Target(g, k);
      assert Target(code, k) == t;
      if t < |g| {
        assert SegOk(g, s, {}, t);
        assert code[t] == g[t];
        if g[t].code == IJmp {
          assert code[t + 1] == g[t + 1];
          assert Target(code, t) == Target(g, t);
          if t < k { assert Target(g, t) == k + 2; }
        }
      }
    }
  }

  lemma EndInst(g: seq<Slot>, s: set<nat>)
    requires Seg(g, s, {})
    ensures InstOk(g + [Inst(IEnd, 0)], s + {|g|}, |g|) && OpAt(g + [Inst(IEnd, 0)], |g|) == IEnd
    ensures 0 in s + {|g|}
  {
    StartsBelow(g, s, {});
  }
}