/** How lptree.c builds patterns: the operators simplify what they are given, and `finalfix` turns
    left-nested sequences and choices around in the flat array of nodes. None of it changes what a
    pattern means, and what is built is what the compiler expects. */
module LpegBuild {

  import opened LpegTree
  import opened LpegAnalysis
  import LpegCompiler

  datatype BuildResult = Pattern(tree: Tree) | Error

  /** Two trees match alike. */
  ghost predicate Alike(p: Tree, q: Tree)
  {
    forall s: seq<Byte>, i: nat | i <= |s| :: Peg(p, s, i) == Peg(q, s, i)
  }

  // ----- operators -----

  /** `lp_seq` */
  function Seq(t1: Tree, t2: Tree): (r: Tree)
    ensures Wf(t1) && Wf(t2) ==> Wf(r) && Alike(r, TSeq(t1, t2))
  {
    if t1.TFalse? || t2.TTrue? then t1 else if t1.TTrue? then t2 else TSeq(t1, t2)
  }

  /** `lp_choice` */
  function Choice(t1: Tree, t2: Tree): (r: Tree)
    ensures Wf(t1) && Wf(t2) ==> Wf(r) && Alike(r, TChoice(t1, t2))
  {
    var (b1, cs1), (b2, cs2) := ToCharset(t1), ToCharset(t2);
    if b1 && b2 then
      TSet(cs1 + cs2)
    else if NoFail(t1) || t2.TFalse? then
      NeverSecond(t1, t2);
      t1
    else if t1.TFalse? then t2
    else TChoice(t1, t2)
  }

  lemma {:induction false} NeverSecond(t1: Tree, t2: Tree)
    requires NoFail(t1) || t2.TFalse?
    ensures Wf(t1) ==> Alike(t1, TChoice(t1, t2))
  {
    if Wf(t1) {
      forall s: seq<Byte>, i: nat | i <= |s| ensures Peg(t1, s, i) == Peg(TChoice(t1, t2), s, i) {
        if NoFail(t1) { NoFailSucceeds(t1, s, i); }
      }
    }
  }

  /** `lp_sub` */
  function Sub(t1: Tree, t2: Tree): (r: Tree)
    ensures Wf(t1) && Wf(t2) ==> Wf(r) && Alike(r, TSeq(TNot(t2), t1))
  {
    var (b1, cs1), (b2, cs2) := ToCharset(t1), ToCharset(t2);
    if b1 && b2 then
      SetDifference(t1, t2);
      TSet(cs1 - cs2)
    else TSeq(TNot(t2), t1)
  }

  /** True and false are neutral and absorbing, and no node is built for them; nor for a second
      alternative that is never tried. */
  lemma {:induction false} Identities(t: Tree, t2: Tree)
    ensures Seq(TTrue, t) == t && Seq(t, TTrue) == t && Seq(TFalse, t) == TFalse
    ensures Choice(TFalse, t) == t && Choice(t, TFalse) == t
    ensures NoFail(t) ==> Choice(t, t2) == t
  {
  }

  /** Patterns of one byte are closed under choice and difference: what is built is one set, of the bytes
      that match. */
  lemma {:induction false} ClassesClosed(t1: Tree, t2: Tree)
    requires (t1.TChar? || t1.TSet? || t1.TAny?) && (t2.TChar? || t2.TSet? || t2.TAny?)
    ensures Choice(t1, t2) == TSet(set b: Byte | Peg(t1, [b], 0).Ok? || Peg(t2, [b], 0).Ok?)
    ensures Sub(t1, t2) == TSet(set b: Byte | Peg(t1, [b], 0).Ok? && Peg(t2, [b], 0).Fail?)
  {
    Class(t1);
    Class(t2);
  }

  lemma {:induction false} Class(t: Tree)
    requires t.TChar? || t.TSet? || t.TAny?
    ensures ToCharset(t).0 && forall b: Byte :: b in ToCharset(t).1 <==> Peg(t, [b], 0).Ok?
  {
  }

  lemma {:induction false} SetDifference(t1: Tree, t2: Tree)
    requires ToCharset(t1).0 && ToCharset(t2).0
    ensures Alike(TSet(ToCharset(t1).1 - ToCharset(t2).1), TSeq(TNot(t2), t1))
  {
    forall s: seq<Byte>, i: nat | i <= |s|
      ensures Peg(TSet(ToCharset(t1).1 - ToCharset(t2).1), s, i) == Peg(TSeq(TNot(t2), t1), s, i)
    {
      OneByte(t1, s, i);
      OneByte(t2, s, i);
      var n := TNot(t2);
      assert Peg(TSeq(n, t1), s, i) == if Peg(n, s, i).Fail? then Fail else Peg(t1, s, i);
    }
  }

  /** What a pattern for one byte of a set means. */
  lemma {:induction false} OneByte(t: Tree, s: seq<Byte>, i: nat)
    requires ToCharset(t).0 && i <= |s|
    ensures Peg(t, s, i) == if i < |s| && s[i] in ToCharset(t).1 then Ok(i + 1) else Fail
  {
  }

  /** `lp_behind` */
  function Behind(t: Tree): (r: BuildResult)
    ensures r.Pattern? && Wf(t) ==> Wf(r.tree)
    ensures r.Pattern? <==> 0 <= FixedLen(t) <= MAXBEHIND
  {
    var n := FixedLen(t);
    if 0 <= n <= MAXBEHIND then Pattern(TBehind(t, n)) else Error
  }

  /** Look-behind matches exactly where a match of its body ends. */
  lemma {:induction false} BehindMeans(t: Tree, s: seq<Byte>, i: nat)
    requires Behind(t).Pattern? && Wf(t) && i <= |s|
    ensures Peg(Behind(t).tree, s, i) == if exists j: nat :: j <= i && Peg(t, s, j) == Ok(i) then Ok(i) else Fail
  {
    var n := FixedLen(t);
    forall j: nat | j <= i ensures Peg(t, s, j) == Ok(i) ==> j == i - n {
      if Peg(t, s, j).Ok? { FixedLenExact(t, s, j); }
    }
    if n <= i && Peg(t, s, i - n).Ok? { FixedLenExact(t, s, i - n); }
  }

  // ----- repetition -----

  /** p at least n times: n copies and a repetition. */
  function AtLeast(t: Tree, n: nat): Tree
  {
    if n == 0 then TRep(t) else TSeq(t, AtLeast(t, n - 1))
  }

  /** p at most n times: nested optional copies. */
  function AtMost(t: Tree, n: nat): Tree
    requires n > 0
  {
    if n == 1 then TChoice(t, TTrue) else TChoice(TSeq(t, AtMost(t, n - 1)), TTrue)
  }

  /** `lp_star`: an error for a body that may match empty, when it is repeated without bound. */
  function Star(t: Tree, n: int): (r: BuildResult)
    ensures r.Error? <==> n >= 0 && Nullable(t)
    ensures r.Pattern? && Wf(t) ==> Wf(r.tree)
  {
    if n >= 0 then
      if Nullable(t) then Error
      else
        AtLeastWf(t, n);
        Pattern(AtLeast(t, n))
    else
      AtMostWf(t, -n);
      Pattern(AtMost(t, -n))
  }

  /** What it refuses: bodies that match the empty subject, if predicates pass. Without predicates
      these are the bodies that match the empty subject. */
  lemma {:induction false} StarRefuses(t: Tree, n: nat)
    requires CallFree(t)
    ensures Star(t, n).Error? <==> Peg(Bare(t), [], 0) == Ok(0)
    ensures Plain(t) ==> (Star(t, n).Error? <==> Peg(t, [], 0) == Ok(0))
  {
    NullableExact(t);
  }

  /** Look-behind is refused for the other patterns: with repetitions, uneven choices or too wide. */
  lemma {:induction false} BehindRefuses(t: Tree)
    ensures Behind(t).Error? <==> !Even(t) || Width(t) > MAXBEHIND
  {
    FixedLenFound(t);
  }

  lemma {:induction false} AtLeastWf(t: Tree, n: nat)
    ensures Wf(t) && !Nullable(t) ==> Wf(AtLeast(t, n))
  {
    if n > 0 { AtLeastWf(t, n - 1); }
  }

  lemma {:induction false} AtMostWf(t: Tree, n: nat)
    requires n > 0
    ensures Wf(t) ==> Wf(AtMost(t, n))
  {
    if n > 1 { AtMostWf(t, n - 1); }
  }

  /** p as often as it goes, but no more than n times. */
  function Greedy(t: Tree, s: seq<Byte>, i: nat, n: nat): (r: nat)
    requires i <= |s|
    ensures i <= r <= |s|
    decreases n
  {
    if n == 0 || Peg(t, s, i).Fail? then i else Greedy(t, s, Peg(t, s, i).pos, n - 1)
  }

  /** p^-n takes up to n copies and cannot fail. */
  lemma {:induction false} AtMostMeans(t: Tree, n: nat, s: seq<Byte>, i: nat)
    requires n > 0 && i <= |s|
    ensures Peg(AtMost(t, n), s, i) == Ok(Greedy(t, s, i, n))
    decreases n
  {
    assert Peg(TTrue, s, i) == Ok(i);
    if n > 1 {
      var more := AtMost(t, n - 1);
      if Peg(t, s, i).Ok? {
        AtMostMeans(t, n - 1, s, Peg(t, s, i).pos);
        assert Peg(TSeq(t, more), s, i) == Peg(more, s, Peg(t, s, i).pos);
      } else {
        assert Peg(TSeq(t, more), s, i) == Fail;
      }
    } else if Peg(t, s, i).Ok? {
      assert Greedy(t, s, Peg(t, s, i).pos, 0) == Peg(t, s, i).pos;
    }
  }

  /** How many copies there are one after the other. */
  ghost predicate Copies(t: Tree, s: seq<Byte>, i: nat, n: nat)
    requires i <= |s|
    decreases n
  {
    n == 0 || (Peg(t, s, i).Ok? && Copies(t, s, Peg(t, s, i).pos, n - 1))
  }

  /** What `lp_star` builds means: as many copies as there are up to -n, or all copies if there are n. */
  lemma {:induction false} StarMeans(t: Tree, n: int, s: seq<Byte>, i: nat)
    requires Star(t, n).Pattern? && i <= |s|
    ensures var r := Peg(Star(t, n).tree, s, i);
            if n < 0 then r == Ok(Greedy(t, s, i, -n))
            else r == if Copies(t, s, i, n) then Peg(TRep(t), s, Greedy(t, s, i, n)) else Fail
  {
    if n < 0 { AtMostMeans(t, -n, s, i); } else { AtLeastMeans(t, n, s, i); }
  }

  /** p^n matches exactly where n copies do, and goes on as the repetition does. */
  lemma {:induction false} AtLeastMeans(t: Tree, n: nat, s: seq<Byte>, i: nat)
    requires i <= |s|
    ensures Peg(AtLeast(t, n), s, i).Ok? <==> Copies(t, s, i, n)
    ensures Copies(t, s, i, n) ==> Peg(AtLeast(t, n), s, i) == Peg(TRep(t), s, Greedy(t, s, i, n))
    decreases n
  {
    if n > 0 && Peg(t, s, i).Ok? { AtLeastMeans(t, n - 1, s, Peg(t, s, i).pos); }
  }

  // ----- the flat array -----

  /** A node of the array. A node with two children knows where the second starts. */
  datatype Node = Leaf(tree: Tree) | One(tag: nat, n: nat) | Two(choice: bool, ps: nat)

  function Flat(t: Tree): (f: seq<Node>)
    ensures f != []
  {
    match t
    case TRep(q) => [One(0, 0)] + Flat(q)
    case TNot(q) => [One(1, 0)] + Flat(q)
    case TAnd(q) => [One(2, 0)] + Flat(q)
    case TBehind(q, n) => [One(3, n)] + Flat(q)
    case TSeq(q1, q2) => [Two(false, 1 + |Flat(q1)|)] + Flat(q1) + Flat(q2)
    case TChoice(q1, q2) => [Two(true, 1 + |Flat(q1)|)] + Flat(q1) + Flat(q2)
    case _ => [Leaf(t)]
  }

  predicate Binary(t: Tree)
  {
    t.TSeq? || t.TChoice?
  }

  function Op(choice: bool, a: Tree, b: Tree): (t: Tree)
    ensures Binary(t) && t.p1 == a && t.p2 == b && t.TChoice? == choice
  {
    if choice then TChoice(a, b) else TSeq(a, b)
  }

  lemma {:induction false} FlatOp(choice: bool, a: Tree, b: Tree)
    ensures Flat(Op(choice, a, b)) == [Two(choice, 1 + |Flat(a)|)] + Flat(a) + Flat(b)
  {
  }

  /** The first child has the same operator. */
  predicate LeftNested(t: Tree)
    requires Binary(t)
  {
    Binary(t.p1) && t.p1.TChoice? == t.TChoice?
  }

  function Rotate(t: Tree): (r: Tree)
    requires Binary(t) && LeftNested(t)
    ensures Binary(r) && r.TChoice? == t.TChoice?
  {
    Op(t.TChoice?, t.p1.p1, Op(t.TChoice?, t.p1.p2, t.p2))
  }

  lemma {:induction false} RotateAlike(t: Tree, s: seq<Byte>, i: nat)
    requires Binary(t) && LeftNested(t) && i <= |s|
    ensures Peg(Rotate(t), s, i) == Peg(t, s, i)
  {
    var a, b, c := t.p1.p1, t.p1.p2, t.p2;
    if t.TSeq? && Peg(a, s, i).Ok? {
      var j := Peg(a, s, i).pos;
      assert Peg(t.p1, s, i) == Peg(b, s, j);
      assert Peg(Rotate(t), s, i) == Peg(TSeq(b, c), s, j);
    } else if t.TChoice? && Peg(a, s, i).Fail? {
      assert Peg(t.p1, s, i) == Peg(b, s, i);
      assert Peg(Rotate(t), s, i) == Peg(TChoice(b, c), s, i);
    }
  }

  lemma {:induction false} FlatRotate(t: Tree)
    requires Binary(t) && LeftNested(t)
    ensures |Flat(Rotate(t))| == |Flat(t)| && |Flat(Rotate(t).p1)| < |Flat(t.p1)|
    ensures var c, a, b, d := t.TChoice?, Flat(t.p1.p1), Flat(t.p1.p2), Flat(t.p2);
            && Flat(t) == [Two(c, 2 + |a| + |b|)] + [Two(c, 1 + |a|)] + a + b + d
            && Flat(Rotate(t)) == [Two(c, 1 + |a|)] + a + [Two(c, 1 + |b|)] + b + d
  {
    hide Flat;
    var c, a, b, d := t.TChoice?, t.p1.p1, t.p1.p2, t.p2;
    assert t.p1 == Op(c, a, b) && t == Op(c, t.p1, d);
    FlatOp(c, a, b);
    FlatOp(c, t.p1, d);
    FlatOp(c, b, d);
    FlatOp(c, a, Op(c, b, d));
    RegroupLeft([Two(c, 2 + |Flat(a)| + |Flat(b)|)], [Two(c, 1 + |Flat(a)|)], Flat(a), Flat(b), Flat(d));
    RegroupRight([Two(c, 1 + |Flat(a)|)] + Flat(a), [Two(c, 1 + |Flat(b)|)], Flat(b), Flat(d));
  }

  lemma {:induction false} RegroupLeft(x: seq<Node>, y: seq<Node>, a: seq<Node>, b: seq<Node>, d: seq<Node>)
    ensures x + (y + a + b) + d == x + y + a + b + d
  {
    assert x + (y + a + b) == x + y + a + b;
  }

  lemma {:induction false} RegroupRight(y: seq<Node>, z: seq<Node>, b: seq<Node>, d: seq<Node>)
    ensures y + (z + b + d) == y + z + b + d
  {
  }

  /** Rotated until the first child has another operator. */
  function Righted(t: Tree): (r: Tree)
    requires Binary(t)
    ensures Binary(r) && !LeftNested(r) && r.TChoice? == t.TChoice? && |Flat(r)| == |Flat(t)|
    decreases |Flat(t.p1)|
  {
    if LeftNested(t) then
      FlatRotate(t);
      Righted(Rotate(t))
    else t
  }

  /** One round of `correctassociativity`: the nodes of the first grandchild move down by one, and
      the node after them becomes the operator of the rest. */
  method RotateOnce(a: array<Node>, at: nat, ghost r: Tree)
    requires Binary(r) && LeftNested(r) && at + |Flat(r)| <= a.Length && a[at..at + |Flat(r)|] == Flat(r)
    modifies a
    ensures |Flat(Rotate(r))| == |Flat(r)| && a[at..at + |Flat(r)|] == Flat(Rotate(r))
    ensures a[..at] == old(a[..at]) && a[at + |Flat(r)|..] == old(a[at + |Flat(r)|..])
  {
    hide Flat, Rotate;
    FlatRotate(r);
    ghost var c, x, y, z := r.TChoice?, Flat(r.p1.p1), Flat(r.p1.p2), Flat(r.p2);
    MoveNodes(a, at, c, x, y, z);
  }

  method MoveNodes(a: array<Node>, at: nat, ghost c: bool, ghost x: seq<Node>, ghost y: seq<Node>, ghost z: seq<Node>)
    requires at + 2 + |x| + |y| + |z| <= a.Length
    requires a[at..at + 2 + |x| + |y| + |z|] == [Two(c, 2 + |x| + |y|)] + [Two(c, 1 + |x|)] + x + y + z
    modifies a
    ensures a[at..at + 2 + |x| + |y| + |z|] == [Two(c, 1 + |x|)] + x + [Two(c, 1 + |y|)] + y + z
    ensures a[..at] == old(a[..at])
    ensures a[at + 2 + |x| + |y| + |z|..] == old(a[at + 2 + |x| + |y| + |z|..])
  {
    ghost var n := 2 + |x| + |y| + |z|;
    ghost var before := a[..];
    Nodes(before, at, c, x, y, z);
    var n1Size, n11Size := a[at].ps - 1, a[at + 1].ps - 1;
    var n12Size := n1Size - n11Size - 1;
    var choice := a[at].choice;
    forall j | 0 <= j < n11Size {
      a[at + 1 + j] := a[at + 2 + j];
    }
    a[at] := Two(choice, n11Size + 1);
    a[at + 1 + n11Size] := Two(choice, n12Size + 1);
    ghost var after := a[..];
    forall k | at + 1 <= k < at + 1 + |x| ensures after[k] == before[k + 1] {
      assert a[at + 1 + (k - at - 1)] == after[k];
    }
    Moved(before, after, at, c, x, y, z);
  }

  /** Where the nodes of a left-nested tree stand. */
  lemma {:induction false} Nodes(s: seq<Node>, at: nat, c: bool, x: seq<Node>, y: seq<Node>, z: seq<Node>)
    requires at + 2 + |x| + |y| + |z| <= |s|
    requires s[at..at + 2 + |x| + |y| + |z|] == [Two(c, 2 + |x| + |y|)] + [Two(c, 1 + |x|)] + x + y + z
    ensures s[at] == Two(c, 2 + |x| + |y|) && s[at + 1] == Two(c, 1 + |x|)
    ensures s[at + 2..at + 2 + |x|] == x && s[at + 2 + |x|..at + 2 + |x| + |y| + |z|] == y + z
  {
    var n := 2 + |x| + |y| + |z|;
    var t := s[at..at + n];
    assert t[0] == s[at] && t[1] == s[at + 1];
    SliceOf(s, at, at + n, 2, 2 + |x|);
    SliceOf(s, at, at + n, 2 + |x|, n);
    assert t[2..2 + |x|] == x && t[2 + |x|..n] == y + z;
  }

  lemma {:induction false} SliceOf(s: seq<Node>, i: nat, j: nat, a: nat, b: nat)
    requires i <= j <= |s| && a <= b <= j - i
    ensures s[i..j][a..b] == s[i + a..i + b]
  {
    var t := s[i..j];
    forall k | 0 <= k < b - a ensures t[a..b][k] == s[i + a..i + b][k] {
      assert t[a + k] == s[i + (a + k)];
    }
  }

  /** The nodes after a round. */
  lemma {:induction false} Moved(s: seq<Node>, t: seq<Node>, at: nat, c: bool, x: seq<Node>, y: seq<Node>, z: seq<Node>)
    requires at + 2 + |x| + |y| + |z| <= |s| == |t|
    requires s[at + 2..at + 2 + |x|] == x && s[at + 2 + |x|..at + 2 + |x| + |y| + |z|] == y + z
    requires t[at] == Two(c, 1 + |x|) && t[at + 1 + |x|] == Two(c, 1 + |y|)
    requires forall k | at + 1 <= k < at + 1 + |x| :: t[k] == s[k + 1]
    requires forall k | 0 <= k < |s| && !(at <= k < at + 2 + |x|) :: t[k] == s[k]
    ensures t[at..at + 2 + |x| + |y| + |z|] == [Two(c, 1 + |x|)] + x + [Two(c, 1 + |y|)] + y + z
    ensures t[..at] == s[..at] && t[at + 2 + |x| + |y| + |z|..] == s[at + 2 + |x| + |y| + |z|..]
  {
    var m := at + 1 + |x|;
    var e := m + 1 + |y| + |z|;
    forall j | 0 <= j < |x| ensures t[at + 1..m][j] == x[j] {
      var k := at + 1 + j;
      assert t[k] == s[k + 1] == s[at + 2..at + 2 + |x|][j];
    }
    assert t[at + 1..m] == x;
    assert t[m + 1..e] == s[m + 1..e] == y + z;
    assert t[at..e] == [t[at]] + t[at + 1..m] + [t[m]] + t[m + 1..e];
    assert [t[at]] + x + [t[m]] + (y + z) == [t[at]] + x + [t[m]] + y + z;
  }

  /** `correctassociativity`, on the nodes of a tree from place `at` on. */
  method CorrectAssociativity(a: array<Node>, at: nat, ghost t: Tree) returns (ghost r: Tree)
    requires Binary(t) && at + |Flat(t)| <= a.Length && a[at..at + |Flat(t)|] == Flat(t)
    modifies a
    ensures r == Righted(t) && a[at..at + |Flat(t)|] == Flat(r)
    ensures a[..at] == old(a[..at]) && a[at + |Flat(t)|..] == old(a[at + |Flat(t)|..])
  {
    hide Flat;
    r := t;
    ghost var n := |Flat(t)|;
    FirstNodes(r);
    while a[at + 1].Two? && a[at + 1].choice == a[at].choice
      invariant Binary(r) && Righted(r) == Righted(t) && |Flat(r)| == n >= 3 && a[at..at + n] == Flat(r)
      invariant a[at] == Flat(r)[0] && a[at + 1] == Flat(r)[1]
      invariant Flat(r)[0] == Two(r.TChoice?, 1 + |Flat(r.p1)|) && Flat(r)[1] == Flat(r.p1)[0]
      invariant a[..at] == old(a[..at]) && a[at + n..] == old(a[at + n..])
      decreases |Flat(r.p1)|
    {
      FirstNodes(r);
      FlatRotate(r);
      RotateOnce(a, at, r);
      r := Rotate(r);
      FirstNodes(r);
      assert a[at..at + n][0] == a[at] && a[at..at + n][1] == a[at + 1];
    }
    FirstNodes(r);
  }

  lemma {:induction false} FirstNodes(t: Tree)
    requires Binary(t)
    ensures |Flat(t)| >= 3 && Flat(t)[0] == Two(t.TChoice?, 1 + |Flat(t.p1)|) && Flat(t)[1] == Flat(t.p1)[0]
    ensures LeftNested(t) <==> Flat(t.p1)[0].Two? && Flat(t.p1)[0].choice == t.TChoice?
  {
  }

  // ----- the whole tree -----

  /** Every tree `finalfix` comes to is turned to the right. */
  function Fixed(t: Tree): (r: Tree)
    ensures |Flat(r)| == |Flat(t)|
    decreases |Flat(t)|
  {
    match t
    case TRep(q) => TRep(Fixed(q))
    case TNot(q) => TNot(Fixed(q))
    case TAnd(q) => TAnd(Fixed(q))
    case TBehind(q, n) => TBehind(Fixed(q), n)
    case TSeq(_, _) =>
      var r := Righted(t);
      FlatOp(false, r.p1, r.p2);
      FlatOp(false, Fixed(r.p1), Fixed(r.p2));
      Op(false, Fixed(r.p1), Fixed(r.p2))
    case TChoice(_, _) =>
      var r := Righted(t);
      FlatOp(true, r.p1, r.p2);
      FlatOp(true, Fixed(r.p1), Fixed(r.p2));
      Op(true, Fixed(r.p1), Fixed(r.p2))
    case _ => t
  }

  lemma {:induction false} RightedAlike(t: Tree, s: seq<Byte>, i: nat)
    requires Binary(t) && i <= |s|
    ensures Peg(Righted(t), s, i) == Peg(t, s, i)
    decreases |Flat(t.p1)|
  {
    if LeftNested(t) {
      FlatRotate(t);
      RotateAlike(t, s, i);
      RightedAlike(Rotate(t), s, i);
    }
  }

  /** What the compiler relies on survives a rotation. */
  lemma {:induction false} RightedKeeps(t: Tree)
    requires Binary(t)
    ensures Wf(t) ==> Wf(Righted(t))
    ensures Nullable(Righted(t)) == Nullable(t) && FixedLen(Righted(t)) == FixedLen(t)
    decreases |Flat(t.p1)|
  {
    if LeftNested(t) {
      FlatRotate(t);
      RotateKeeps(t);
      RightedKeeps(Rotate(t));
    }
  }

  lemma {:induction false} RotateKeeps(t: Tree)
    requires Binary(t) && LeftNested(t)
    ensures Wf(t) ==> Wf(Rotate(t))
    ensures Nullable(Rotate(t)) == Nullable(t) && FixedLen(Rotate(t)) == FixedLen(t)
  {
    var c, a, b, d := t.TChoice?, t.p1.p1, t.p1.p2, t.p2;
    var left, right := Op(c, a, b), Op(c, b, d);
    assert t == Op(c, left, d) && Rotate(t) == Op(c, a, right);
    assert Wf(t) <==> Wf(left) && Wf(d);
    assert Wf(left) <==> Wf(a) && Wf(b);
    assert Wf(right) <==> Wf(b) && Wf(d);
    if c {
      assert Nullable(left) == (Nullable(a) || Nullable(b)) && Nullable(right) == (Nullable(b) || Nullable(d));
    } else {
      assert Nullable(left) == (Nullable(a) && Nullable(b)) && Nullable(right) == (Nullable(b) && Nullable(d));
    }
    LeastLengths(a);
    LeastLengths(b);
    LeastLengths(d);
    LengthOf(c, a, b);
    LengthOf(c, b, d);
    LengthOf(c, left, d);
    LengthOf(c, a, right);
  }

  lemma {:induction false} LeastLengths(t: Tree)
    ensures FixedLen(t) >= -1
  {
    match t
    case TSeq(a, b) => LeastLengths(a); LeastLengths(b);
    case TChoice(a, b) => LeastLengths(a);
    case _ =>
  }

  lemma {:induction false} LengthOf(c: bool, a: Tree, b: Tree)
    ensures var m, n := FixedLen(a), FixedLen(b);
      FixedLen(Op(c, a, b)) == if m < 0 || n < 0 || (c && m != n) then -1 else if c then m else m + n
  {
  }

  lemma {:induction false} FixedKeeps(t: Tree)
    ensures Wf(t) ==> Wf(Fixed(t))
    ensures Nullable(Fixed(t)) == Nullable(t) && FixedLen(Fixed(t)) == FixedLen(t)
    decreases |Flat(t)|
  {
    match t
    case TRep(q) => FixedKeeps(q);
    case TNot(q) => FixedKeeps(q);
    case TAnd(q) => FixedKeeps(q);
    case TBehind(q, _) => FixedKeeps(q);
    case TSeq(_, _) => FixedBinary(t);
    case TChoice(_, _) => FixedBinary(t);
    case _ =>
  }

  lemma {:induction false} FixedBinary(t: Tree)
    requires Binary(t)
    ensures Wf(t) ==> Wf(Fixed(t))
    ensures Nullable(Fixed(t)) == Nullable(t) && FixedLen(Fixed(t)) == FixedLen(t)
    decreases |Flat(t)|, 0
  {
    var r := Righted(t);
    FlatOp(r.TChoice?, r.p1, r.p2);
    assert r == Op(r.TChoice?, r.p1, r.p2);
    RightedKeeps(t);
    FixedKeeps(r.p1);
    FixedKeeps(r.p2);
    assert Fixed(t) == Op(r.TChoice?, Fixed(r.p1), Fixed(r.p2));
  }

  /** Turning a tree to the right changes nothing it matches. */
  lemma {:induction false} FixedAlike(t: Tree, s: seq<Byte>, i: nat)
    requires i <= |s|
    ensures Peg(Fixed(t), s, i) == Peg(t, s, i)
    decreases |Flat(t)|, |s| - i
  {
    match t
    case TRep(q) =>
      FixedAlike(q, s, i);
      if Peg(q, s, i).Ok? && Peg(q, s, i).pos > i { FixedAlike(t, s, Peg(q, s, i).pos); }
    case TNot(q) => FixedAlike(q, s, i);
    case TAnd(q) => FixedAlike(q, s, i);
    case TBehind(q, n) => if n <= i { FixedAlike(q, s, i - n); }
    case TSeq(_, _) =>
      var r := Righted(t);
      FlatOp(false, r.p1, r.p2);
      RightedAlike(t, s, i);
      FixedAlike(r.p1, s, i);
      if Peg(r.p1, s, i).Ok? { FixedAlike(r.p2, s, Peg(r.p1, s, i).pos); }
    case TChoice(_, _) =>
      var r := Righted(t);
      FlatOp(true, r.p1, r.p2);
      RightedAlike(t, s, i);
      FixedAlike(r.p1, s, i);
      FixedAlike(r.p2, s, i);
    case _ =>
  }

  /** No sequence begins with a sequence, no choice with a choice. */
  predicate RightNested(t: Tree)
  {
    match t
    case TRep(q) => RightNested(q)
    case TNot(q) => RightNested(q)
    case TAnd(q) => RightNested(q)
    case TBehind(q, _) => RightNested(q)
    case TSeq(q1, q2) => !q1.TSeq? && RightNested(q1) && RightNested(q2)
    case TChoice(q1, q2) => !q1.TChoice? && RightNested(q1) && RightNested(q2)
    case _ => true
  }

  lemma {:induction false} FixedNested(t: Tree)
    ensures RightNested(Fixed(t))
    ensures Fixed(t).TSeq? == t.TSeq? && Fixed(t).TChoice? == t.TChoice?
    decreases |Flat(t)|
  {
    match t
    case TRep(q) => FixedNested(q);
    case TNot(q) => FixedNested(q);
    case TAnd(q) => FixedNested(q);
    case TBehind(q, _) => FixedNested(q);
    case TSeq(_, _) =>
      var r := Righted(t);
      FlatOp(false, r.p1, r.p2);
      FixedNested(r.p1);
      FixedNested(r.p2);
    case TChoice(_, _) =>
      var r := Righted(t);
      FlatOp(true, r.p1, r.p2);
      FixedNested(r.p1);
      FixedNested(r.p2);
    case _ =>
  }

  /** `finalfix` for a tree without calls, in place. */
  method FinalFix(a: array<Node>, at: nat, ghost t: Tree)
    requires at + |Flat(t)| <= a.Length && a[at..at + |Flat(t)|] == Flat(t)
    modifies a
    ensures a[at..at + |Flat(t)|] == Flat(Fixed(t))
    ensures a[..at] == old(a[..at]) && a[at + |Flat(t)|..] == old(a[at + |Flat(t)|..])
    decreases |Flat(t)|
  {
    FirstNode(t);
    assert a[at] == a[at..at + |Flat(t)|][0] == Flat(t)[0];
    if a[at].One? {
      FixOne(a, at, Child(t), a[at]);
    } else if a[at].Two? {
      FixBinary(a, at, t);
    }
  }

  lemma {:induction false} FirstNode(t: Tree)
    ensures |Flat(t)| > 0 && (Flat(t)[0].Two? <==> Binary(t))
    ensures !Flat(t)[0].One? && !Flat(t)[0].Two? ==> Fixed(t) == t
  {
  }

  method FixOne(a: array<Node>, at: nat, ghost q: Tree, ghost x: Node)
    requires at + 1 + |Flat(q)| <= a.Length && a[at..at + 1 + |Flat(q)|] == [x] + Flat(q)
    modifies a
    ensures a[at..at + 1 + |Flat(q)|] == [x] + Flat(Fixed(q))
    ensures a[..at] == old(a[..at]) && a[at + 1 + |Flat(q)|..] == old(a[at + 1 + |Flat(q)|..])
    decreases 1 + |Flat(q)|, 0
  {
    hide Flat, Fixed;
    FixedLength(q);
    ghost var f, f1, s0 := Flat(q), Flat(Fixed(q)), a[..];
    assert a[at..at + 1 + |f|] == s0[at..at + 1 + |f|] && [x] + f == [x] + f + [];
    Parts(s0, at, x, f, []);
    assert a[at + 1..at + 1 + |f|] == s0[at + 1..at + 1 + |f|];
    FinalFix(a, at + 1, q);
    FirstDone(s0, a[..], at, x, f, [], f1);
    assert [x] + f1 + [] == [x] + f1;
    assert a[at..at + 1 + |f|] == a[..][at..at + 1 + |f|];
  }

  lemma {:induction false} FixedLength(t: Tree)
    ensures |Flat(Fixed(t))| == |Flat(t)|
  {
  }

  /** The child of a node with one. */
  ghost function Child(t: Tree): (q: Tree)
    requires Flat(t)[0].One?
    ensures |Flat(t)| == 1 + |Flat(q)| && Flat(t) == [Flat(t)[0]] + Flat(q)
    ensures Flat(Fixed(t)) == [Flat(t)[0]] + Flat(Fixed(q))
  {
    t.body
  }

  method FixBinary(a: array<Node>, at: nat, ghost t: Tree)
    requires Binary(t) && at + |Flat(t)| <= a.Length && a[at..at + |Flat(t)|] == Flat(t)
    modifies a
    ensures a[at..at + |Flat(t)|] == Flat(Fixed(t))
    ensures a[..at] == old(a[..at]) && a[at + |Flat(t)|..] == old(a[at + |Flat(t)|..])
    decreases |Flat(t)|, 1
  {
    hide Flat, Fixed, Righted;
    ghost var r := CorrectAssociativity(a, at, t);
    FixedStep(t);
    FixChildren(a, at, Two(r.TChoice?, 1 + |Flat(r.p1)|), r.p1, r.p2);
  }

  lemma {:induction false} FixedStep(t: Tree)
    requires Binary(t)
    ensures var r := Righted(t); var x := [Two(r.TChoice?, 1 + |Flat(r.p1)|)];
            && Flat(r) == x + Flat(r.p1) + Flat(r.p2) && |Flat(r)| == |Flat(t)|
            && Flat(Fixed(t)) == x + Flat(Fixed(r.p1)) + Flat(Fixed(r.p2))
            && |Flat(Fixed(r.p1))| == |Flat(r.p1)| && |Flat(Fixed(r.p2))| == |Flat(r.p2)|
  {
    hide Flat, Fixed, Righted;
    var r := Righted(t);
    FixedLength(r.p1);
    FixedLength(r.p2);
    FixedOp(t);
    FlatOp(r.TChoice?, r.p1, r.p2);
    FlatOp(r.TChoice?, Fixed(r.p1), Fixed(r.p2));
  }

  lemma {:induction false} FixedOp(t: Tree)
    requires Binary(t)
    ensures var r := Righted(t);
            && Binary(r) && r == Op(r.TChoice?, r.p1, r.p2) && |Flat(r)| == |Flat(t)|
            && Fixed(t) == Op(r.TChoice?, Fixed(r.p1), Fixed(r.p2))
  {
    hide Flat;
  }

  /** The two children, one after the other. */
  method FixChildren(a: array<Node>, at: nat, ghost x: Node, ghost p1: Tree, ghost p2: Tree)
    requires x.Two? && x.ps == 1 + |Flat(p1)| && at + 1 + |Flat(p1)| + |Flat(p2)| <= a.Length
    requires a[at..at + 1 + |Flat(p1)| + |Flat(p2)|] == [x] + Flat(p1) + Flat(p2)
    modifies a
    ensures a[at..at + 1 + |Flat(p1)| + |Flat(p2)|] == [x] + Flat(Fixed(p1)) + Flat(Fixed(p2))
    ensures a[..at] == old(a[..at])
    ensures a[at + 1 + |Flat(p1)| + |Flat(p2)|..] == old(a[at + 1 + |Flat(p1)| + |Flat(p2)|..])
    decreases 1 + |Flat(p1)| + |Flat(p2)|, 0, 1
  {
    hide Flat, Fixed;
    FixedLength(p1);
    FixFirst(a, at, x, p1, p2);
    FixSecond(a, at, x, Flat(Fixed(p1)), p2);
  }

  method FixFirst(a: array<Node>, at: nat, ghost x: Node, ghost p1: Tree, ghost p2: Tree)
    requires x.Two? && at + 1 + |Flat(p1)| + |Flat(p2)| <= a.Length
    requires a[at..at + 1 + |Flat(p1)| + |Flat(p2)|] == [x] + Flat(p1) + Flat(p2)
    modifies a
    ensures a[at..at + 1 + |Flat(p1)| + |Flat(p2)|] == [x] + Flat(Fixed(p1)) + Flat(p2)
    ensures a[..at] == old(a[..at])
    ensures a[at + 1 + |Flat(p1)| + |Flat(p2)|..] == old(a[at + 1 + |Flat(p1)| + |Flat(p2)|..])
    decreases 1 + |Flat(p1)| + |Flat(p2)|, 0, 0
  {
    hide Flat, Fixed;
    FixedLength(p1);
    ghost var f, g, f1 := Flat(p1), Flat(p2), Flat(Fixed(p1));
    ghost var s0, n := a[..], 1 + |f| + |g|;
    assert a[at..at + n] == s0[at..at + n] && a[..at] == s0[..at] && a[at + n..] == s0[at + n..];
    Parts(s0, at, x, f, g);
    assert a[at + 1..at + 1 + |f|] == s0[at + 1..at + 1 + |f|];
    FinalFix(a, at + 1, p1);
    FirstDone(s0, a[..], at, x, f, g, f1);
    assert a[at..at + n] == a[..][at..at + n] && a[..at] == a[..][..at] && a[at + n..] == a[..][at + n..];
  }

  method FixSecond(a: array<Node>, at: nat, ghost x: Node, ghost f: seq<Node>, ghost p2: Tree)
    requires x.Two? && x.ps == 1 + |f| && at + 1 + |f| + |Flat(p2)| <= a.Length
    requires a[at..at + 1 + |f| + |Flat(p2)|] == [x] + f + Flat(p2)
    modifies a
    ensures a[at..at + 1 + |f| + |Flat(p2)|] == [x] + f + Flat(Fixed(p2))
    ensures a[..at] == old(a[..at])
    ensures a[at + 1 + |f| + |Flat(p2)|..] == old(a[at + 1 + |f| + |Flat(p2)|..])
    decreases 1 + |f| + |Flat(p2)|, 0, 0
  {
    hide Flat, Fixed;
    FixedLength(p2);
    ghost var g, g1 := Flat(p2), Flat(Fixed(p2));
    ghost var s1, n := a[..], 1 + |f| + |g|;
    assert a[at..at + n] == s1[at..at + n] && a[..at] == s1[..at] && a[at + n..] == s1[at + n..];
    Parts(s1, at, x, f, g);
    assert a[at] == s1[at] == x;
    var second := at + a[at].ps;
    assert a[second..second + |g|] == s1[second..second + |g|];
    FinalFix(a, second, p2);
    SecondDone(s1, a[..], at, x, f, g, g1);
    assert a[at..at + n] == a[..][at..at + n] && a[..at] == a[..][..at];
  }

  /** A tree inside an array. */
  lemma {:induction false} Parts(s: seq<Node>, at: nat, x: Node, f: seq<Node>, g: seq<Node>)
    requires at + 1 + |f| + |g| <= |s| && s[at..at + 1 + |f| + |g|] == [x] + f + g
    ensures s[at] == x && s[at + 1..at + 1 + |f|] == f && s[at + 1 + |f|..at + 1 + |f| + |g|] == g
  {
    var t := s[at..at + 1 + |f| + |g|];
    assert t[0] == x && t[1..1 + |f|] == f && t[1 + |f|..] == g;
    SliceOf(s, at, at + 1 + |f| + |g|, 1, 1 + |f|);
    SliceOf(s, at, at + 1 + |f| + |g|, 1 + |f|, 1 + |f| + |g|);
  }

  /** The first part was replaced. */
  lemma {:induction false} FirstDone(s0: seq<Node>, s1: seq<Node>, at: nat, x: Node, f: seq<Node>, g: seq<Node>,
                                     f1: seq<Node>)
    requires at + 1 + |f| + |g| <= |s0| == |s1| && |f1| == |f| && s0[at..at + 1 + |f| + |g|] == [x] + f + g
    requires s1[..at + 1] == s0[..at + 1] && s1[at + 1..at + 1 + |f|] == f1 && s1[at + 1 + |f|..] == s0[at + 1 + |f|..]
    ensures s1[at..at + 1 + |f| + |g|] == [x] + f1 + g && s1[at + 1 + |f|..at + 1 + |f| + |g|] == g
    ensures s1[..at] == s0[..at] && s1[at + 1 + |f| + |g|..] == s0[at + 1 + |f| + |g|..]
  {
    Parts(s0, at, x, f, g);
    var m := at + 1 + |f|;
    assert s1[at] == s1[..at + 1][at] == x;
    assert s1[m..m + |g|] == s1[m..][..|g|] == s0[m..][..|g|] == s0[m..m + |g|];
    assert s1[at..m + |g|] == [s1[at]] + s1[at + 1..m] + s1[m..m + |g|];
    assert s1[..at] == s1[..at + 1][..at] && s0[..at] == s0[..at + 1][..at];
    assert s1[m + |g|..] == s1[m..][|g|..] && s0[m + |g|..] == s0[m..][|g|..];
  }

  /** The second part was replaced. */
  lemma {:induction false} SecondDone(s1: seq<Node>, s2: seq<Node>, at: nat, x: Node, f: seq<Node>, g: seq<Node>,
                                      g1: seq<Node>)
    requires at + 1 + |f| + |g| <= |s1| == |s2| && |g1| == |g| && s1[at..at + 1 + |f| + |g|] == [x] + f + g
    requires var m := at + 1 + |f|; s2[..m] == s1[..m] && s2[m..m + |g|] == g1 && s2[m + |g|..] == s1[m + |g|..]
    ensures s2[at..at + 1 + |f| + |g|] == [x] + f + g1 && s2[..at] == s1[..at]
  {
    Parts(s1, at, x, f, g);
    var m := at + 1 + |f|;
    assert s2[at..m] == s2[..m][at..] == s1[..m][at..] == s1[at..m] == [x] + f;
    assert s2[at..m + |g|] == s2[at..m] + s2[m..m + |g|];
    assert s2[..at] == s2[..m][..at] && s1[..at] == s1[..m][..at];
  }

  /** `prepcompile` and `match`: a pattern fixed, compiled and run matches what it means. */
  method FixAndMatch(t: Tree, s: seq<Byte>, i: nat) returns (r: Res)
    requires Wf(t) && i <= |s|
    ensures r == Peg(t, s, i)
  {
    FixedKeeps(t);
    FixedAlike(t, s, i);
    r := LpegCompiler.MatchPattern(Fixed(t), s, i);
  }
}
