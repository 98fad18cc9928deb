/** The big integers of dtoa.c: little-endian arrays of 32-bit words, worked on in place by carry
    and borrow loops. */
module BigInt {

  const B := 0x1_0000_0000

  type Word = x: int | 0 <= x < B

  /** The number a sequence of words stands for. */
  function Val(s: seq<Word>): nat
  {
    if s == [] then 0 else s[0] + B * Val(s[1..])
  }

  /** B to the i. */
  function P(i: nat): (p: nat)
    ensures p > 0
  {
    if i == 0 then 1 else B * P(i - 1)
  }

  // ----- algebra -----

  lemma {:induction false} ValSnoc(s: seq<Word>, w: Word)
    ensures Val(s + [w]) == Val(s) + w * P(|s|)
    decreases s
  {
    if s == [] {
      assert s + [w] == [w];
      assert [w][1..] == [];
    } else {
      ValSnoc(s[1..], w);
      assert (s + [w])[1..] == s[1..] + [w];
      var p := P(|s| - 1);
      assert B * (Val(s[1..]) + w * p) == B * Val(s[1..]) + w * (B * p) by { Scale(B, Val(s[1..]), w, p); }
    }
  }

  lemma Scale(b: int, v: int, w: int, p: int)
    ensures b * (v + w * p) == b * v + w * (b * p)
  {
  }

  /** The first i + 1 words of an array, from the first i. */
  lemma ValStep(s: seq<Word>, i: nat)
    requires i < |s|
    ensures Val(s[..i + 1]) == Val(s[..i]) + s[i] * P(i)
  {
    assert s[..i + 1] == s[..i] + [s[i]];
    ValSnoc(s[..i], s[i]);
  }

  lemma {:induction false} ValBound(s: seq<Word>)
    ensures Val(s) < P(|s|)
    decreases s
  {
    if s != [] { ValBound(s[1..]); }
  }

  lemma {:induction false} PSum(i: nat, j: nat)
    ensures P(i + j) == P(i) * P(j)
    decreases i
  {
    if i > 0 {
      PSum(i - 1, j);
      Assoc(B, P(i - 1), P(j));
    }
  }

  lemma Assoc(a: int, b: int, c: int)
    ensures a * (b * c) == (a * b) * c
  {
  }

  lemma {:induction false} ValConcat(s: seq<Word>, t: seq<Word>)
    ensures Val(s + t) == Val(s) + P(|s|) * Val(t)
    decreases s
  {
    if s == [] {
      assert s + t == t;
    } else {
      assert (s + t)[1..] == s[1..] + t;
      ValConcat(s[1..], t);
      Assoc(B, P(|s| - 1), Val(t));
    }
  }

  lemma {:induction false} ValZeros(s: seq<Word>)
    requires forall k | 0 <= k < |s| :: s[k] == 0
    ensures Val(s) == 0
    decreases s
  {
    if s != [] { ValZeros(s[1..]); }
  }

  /** Leading zero words do not count. */
  lemma ValTrim(s: seq<Word>, n: nat)
    requires n <= |s| && forall k | n <= k < |s| :: s[k] == 0
    ensures Val(s) == Val(s[..n])
  {
    assert s == s[..n] + s[n..];
    ValConcat(s[..n], s[n..]);
    ValZeros(s[n..]);
  }

  /** One carry step: value and carry, at weight p. */
  lemma CarryStep(y: nat, carry: nat, low: nat, p: nat)
    requires y == carry * B + low
    ensures low * p + carry * (B * p) == y * p
  {
    assert carry * (B * p) == (carry * B) * p by { Assoc(carry, B, p); }
    Distribute(carry * B, low, p);
  }

  lemma Distribute(a: int, b: int, c: int)
    ensures (a + b) * c == a * c + b * c
  {
  }

  lemma MulMono(a: int, b: int, c: int)
    requires a <= b && c >= 0
    ensures a * c <= b * c
  {
    Distribute(b - a, a, c);
    NonNegative(b - a, c);
  }

  lemma NonNegative(a: int, b: int)
    requires a >= 0 && b >= 0
    ensures a * b >= 0
  {
  }

  /** The top word is not zero exactly when the number needs all its words. */
  lemma TopWord(s: seq<Word>)
    requires s != []
    ensures s[|s| - 1] != 0 <==> Val(s) >= P(|s| - 1)
  {
    var n := |s| - 1;
    assert s[..n + 1] == s;
    ValStep(s, n);
    ValBound(s[..n]);
    if s[n] != 0 { MulMono(1, s[n], P(n)); }
  }

  // ----- numbers as objects -----

  function Pow2(k: nat): (p: nat)
    ensures p > 0
  {
    if k == 0 then 1 else 2 * Pow2(k - 1)
  }

  class Bigint {
    var k: nat
    var x: array<Word>
    var sign: int
    var wds: nat

    ghost predicate Valid()
      reads this
    {
      x.Length == Pow2(k) && wds <= x.Length
    }

    ghost function Words(): (s: seq<Word>)
      requires Valid()
      reads this, x
      ensures |s| == wds
    {
      x[..wds]
    }

    ghost function V(): nat
      requires Valid()
      reads this, x
    {
      Val(Words())
    }

    /** No leading zero word, except that zero may have one word. */
    ghost predicate Trimmed()
      requires Valid()
      reads this, x
    {
      wds > 1 ==> x[wds - 1] != 0
    }

    /** `Balloc` */
    constructor (k: nat)
      ensures Valid() && fresh(x) && wds == 0 && sign == 0 && this.k == k
    {
      this.k := k;
      x := new Word[Pow2(k)](_ => 0);
      sign, wds := 0, 0;
    }
  }

  /** `i2b` */
  method FromWord(i: Word) returns (b: Bigint)
    ensures fresh(b) && fresh(b.x) && b.Valid() && b.V() == i && b.wds == 1 && b.sign == 0
  {
    b := new Bigint(1);
    b.x[0] := i;
    b.wds := 1;
    assert b.x[..1] == [i];
    assert Val([i]) == i + B * Val([i][1..]);
    assert [i][1..] == [];
  }

  /** The loop of `multadd`. */
  method MultAddWords(x: array<Word>, wds: nat, m: nat, a: nat) returns (carry: Word)
    requires wds <= x.Length && m < 0x8000_0000 && a < 0x8000_0000
    modifies x
    ensures Val(x[..wds]) + carry * P(wds) == Val(old(x[..wds])) * m + a
    ensures x[wds..] == old(x[wds..])
  {
    hide Val, P;
    ghost var s := x[..wds];
    ValNone(x[..], s, s);
    var i := 0;
    carry := a;
    while i < wds
      invariant 0 <= i <= wds
      invariant Val(x[..][..i]) + carry * P(i) == Val(s[..i]) * m + a
      invariant x[i..] == old(x[i..])
    {
      assert x[i] == s[i];
      var y := x[i] * m + carry;
      ProductBound(s[i], m, carry);
      ghost var before, carry0 := x[..], carry;
      carry := y / B;
      x[i] := y % B;
      MultAddStep(before, x[..], s, i, m, a, carry0, carry);
      i := i + 1;
    }
    assert x[..][..wds] == x[..wds] && s[..wds] == s;
  }

  /** `Balloc(b->k+1)` and `Bcopy`: the same number with twice the room. */
  method Grown(b: Bigint) returns (r: Bigint)
    requires b.Valid()
    ensures fresh(r) && fresh(r.x) && r.Valid() && r.Words() == b.Words()
    ensures r.sign == b.sign && r.x.Length == 2 * b.x.Length
  {
    r := new Bigint(b.k + 1);
    var i := 0;
    while i < b.wds
      invariant 0 <= i <= b.wds && r.Valid() && fresh(r) && fresh(r.x) && r.x.Length == 2 * b.x.Length && r.sign == 0
      invariant b.Valid() && r.x[..i] == b.x[..i] && b.Words() == old(b.Words())
    {
      r.x[i] := b.x[i];
      i := i + 1;
    }
    r.sign := b.sign;
    r.wds := b.wds;
  }

  /** Put one more word on top. */
  method PushWord(b: Bigint, carry: Word)
    requires b.Valid() && b.wds < b.x.Length
    modifies b, b.x
    ensures b.Valid() && b.x == old(b.x) && b.sign == old(b.sign)
    ensures b.Words() == old(b.Words()) + [carry]
  {
    b.x[b.wds] := carry;
    b.wds := b.wds + 1;
    assert b.x[..b.wds] == b.x[..b.wds - 1] + [carry];
  }

  /** `multadd`: b * m + a, in place unless one more word is needed than there is room for. */
  method MultAdd(b: Bigint, m: nat, a: nat) returns (r: Bigint)
    requires b.Valid() && b.wds >= 1 && m < 0x8000_0000 && a < 0x8000_0000
    modifies b, b.x
    ensures r.Valid() && r.V() == old(b.V()) * m + a && r.wds >= 1
    ensures (r == b && r.x == old(b.x)) || (fresh(r) && fresh(r.x))
    ensures r.sign == old(b.sign)
    ensures old(b.Trimmed()) && m > 0 ==> r.Trimmed()
  {
    ghost var s := b.Words();
    var carry := MultAddWords(b.x, b.wds, m, a);
    ghost var low := b.Words();
    r := b;
    if carry != 0 {
      if b.wds >= b.x.Length {
        r := Grown(b);
      }
      PushWord(r, carry);
      ValSnoc(low, carry);
      assert r.x[r.wds - 1] == r.Words()[r.wds - 1];
    } else {
      TopStays(s, low, m, a);
    }
  }

  lemma TopStays(s: seq<Word>, low: seq<Word>, m: nat, a: nat)
    requires |s| == |low| >= 1 && Val(low) == Val(s) * m + a
    ensures s[|s| - 1] != 0 && m > 0 ==> low[|s| - 1] != 0
  {
    hide Val, P;
    TopWord(s);
    TopWord(low);
    if m > 0 { Grows(Val(s), m); }
  }

  lemma Grows(v: nat, m: nat)
    requires m > 0
    ensures v * m >= v
  {
    MulMono(1, m, v);
    assert m * v == v * m;
  }

  lemma ProductBound(x: Word, m: nat, carry: Word)
    requires m < 0x8000_0000
    ensures (x * m + carry) / B < B
  {
    MulMono(x, B - 1, m);
  }

  lemma MultAddStep(before: seq<Word>, after: seq<Word>, s: seq<Word>, i: nat, m: nat, a: nat, carry0: nat, carry: nat)
    requires i < |s| <= |before| && before[i] == s[i]
    requires var y := s[i] * m + carry0; after == before[i := y % B] && carry == y / B
    requires Val(before[..i]) + carry0 * P(i) == Val(s[..i]) * m + a
    ensures Val(after[..i + 1]) + carry * P(i + 1) == Val(s[..i + 1]) * m + a
  {
    var y, p := s[i] * m + carry0, P(i);
    ValStep(after, i);
    ValStep(s, i);
    assert after[..i] == before[..i];
    CarryStep(y, carry, y % B, p);
    Distribute(s[i] * m, carry0, p);
    Distribute(Val(s[..i]), s[i] * p, m);
    assert s[i] * p * m == s[i] * m * p by { Assoc(s[i], p, m); Assoc(s[i], m, p); }
  }

  // ----- multiplication -----

  lemma RowBound(x: Word, y: Word, c: Word, carry: Word)
    ensures (x * y + c + carry) / B < B
  {
    MulMono(x, B - 1, y);
    MulMono(y, B - 1, B - 1);
    assert (B - 1) * y == y * (B - 1);
  }

  /** One step of a row: words read at place i, carry moved to place i + 1. */
  lemma RowStep(before: seq<Word>, after: seq<Word>, c: seq<Word>, a: seq<Word>, i: nat, y: Word, carry0: Word,
                carry: Word)
    requires |before| == |after| == |c| == |a| && i < |a| && before[i] == c[i]
    requires var z := a[i] * y + c[i] + carry0; after == before[i := z % B] && carry == z / B
    requires Val(before[..i]) + carry0 * P(i) == Val(c[..i]) + Val(a[..i]) * y
    ensures Val(after[..i + 1]) + carry * P(i + 1) == Val(c[..i + 1]) + Val(a[..i + 1]) * y
  {
    var z, p := a[i] * y + c[i] + carry0, P(i);
    ValStep(after, i);
    ValStep(c, i);
    ValStep(a, i);
    assert after[..i] == before[..i];
    CarryStep(z, carry, z % B, p);
    RowAlgebra(a[i], y, c[i], carry0, p, Val(a[..i]));
  }

  lemma RowAlgebra(a: int, y: int, c: int, carry: int, p: int, v: int)
    ensures (a * y + c + carry) * p == a * y * p + c * p + carry * p
    ensures (v + a * p) * y == v * y + a * y * p
  {
    Distribute(a * y + c, carry, p);
    Distribute(a * y, c, p);
    Distribute(v, a * p, y);
    Assoc(a, p, y);
    Assoc(a, y, p);
  }

  lemma {:induction false} ValNone(s: seq<Word>, t: seq<Word>, u: seq<Word>)
    ensures Val(s[..0]) == Val(t[..0]) == Val(u[..0]) == 0 && P(0) == 1
  {
  }

  /** One row of `mult`: add y times `xa` to `xc` from place j on. */
  method MultRow(xa: array<Word>, wa: nat, y: Word, xc: array<Word>, j: nat)
    requires wa <= xa.Length && j + wa < xc.Length && xa != xc
    modifies xc
    ensures Val(xc[j..j + wa + 1]) == Val(old(xc[j..j + wa])) + Val(xa[..wa]) * y
    ensures xc[..j] == old(xc[..j]) && xc[j + wa + 1..] == old(xc[j + wa + 1..])
  {
    hide Val, P;
    ghost var c, a := xc[j..j + wa], xa[..wa];
    ValNone(xc[j..j + wa], c, a);
    var i := 0;
    var carry: Word := 0;
    while i < wa
      invariant 0 <= i <= wa
      invariant Val(xc[j..j + wa][..i]) + carry * P(i) == Val(c[..i]) + Val(a[..i]) * y
      invariant xc[j + i..] == old(xc[j + i..]) && xc[..j] == old(xc[..j])
    {
      ghost var before, carry0 := xc[j..j + wa], carry;
      assert before[i] == xc[j + i] == c[i] && xa[i] == a[i];
      var z := xa[i] * y + xc[j + i] + carry;
      RowBound(a[i], y, c[i], carry);
      carry := z / B;
      xc[j + i] := z % B;
      assert xc[j..j + wa] == before[i := z % B];
      RowStep(before, xc[j..j + wa], c, a, i, y, carry0, carry);
      i := i + 1;
    }
    ghost var low := xc[j..j + wa];
    assert low[..wa] == low && c[..wa] == c && a[..wa] == a;
    xc[j + wa] := carry;
    assert xc[j..j + wa + 1] == low + [carry];
    ValSnoc(low, carry);
  }

  lemma OuterStep(before: seq<Word>, after: seq<Word>, a: seq<Word>, b: seq<Word>, j: nat)
    requires |before| == |after| && j < |b| && j + |a| < |before|
    requires Val(before[..j + |a|]) == Val(a) * Val(b[..j])
    requires after[..j] == before[..j]
    requires Val(after[j..j + |a| + 1]) == Val(before[j..j + |a|]) + Val(a) * b[j]
    ensures Val(after[..j + |a| + 1]) == Val(a) * Val(b[..j + 1])
  {
    hide Val, P;
    var n, p := |a|, P(j);
    assert after[..j + n + 1] == after[..j] + after[j..j + n + 1];
    ValConcat(after[..j], after[j..j + n + 1]);
    assert before[..j + n] == before[..j] + before[j..j + n];
    ValConcat(before[..j], before[j..j + n]);
    ValStep(b, j);
    OuterAlgebra(Val(before[j..j + n]), Val(a), b[j], p, Val(b[..j]));
  }

  lemma OuterAlgebra(r: int, a: int, y: int, p: int, v: int)
    ensures p * (r + a * y) == p * r + a * (y * p)
    ensures a * (v + y * p) == a * v + a * (y * p)
  {
    assert p * (r + a * y) == p * r + p * (a * y);
    Assoc(a, y, p);
    assert p * (a * y) == (a * y) * p;
  }

  /** A row, left out when its word is zero. */
  method AddRow(xa: array<Word>, wa: nat, y: Word, xc: array<Word>, j: nat)
    requires wa <= xa.Length && j + wa < xc.Length && xa != xc && xc[j + wa] == 0
    modifies xc
    ensures Val(xc[j..j + wa + 1]) == Val(old(xc[j..j + wa])) + Val(xa[..wa]) * y
    ensures xc[..j] == old(xc[..j])
    ensures forall i | j + wa < i < xc.Length :: xc[i] == old(xc[i])
  {
    if y != 0 {
      ghost var rest := xc[j + wa + 1..];
      MultRow(xa, wa, y, xc, j);
      forall i | j + wa < i < xc.Length ensures xc[i] == old(xc[i]) {
        assert xc[i] == rest[i - (j + wa + 1)];
      }
    } else {
      assert xc[j..j + wa + 1] == xc[j..j + wa] + [0];
      ValSnoc(xc[j..j + wa], 0);
    }
  }

  /** The loops of `mult`. */
  method MultWords(xa: array<Word>, wa: nat, xb: array<Word>, wb: nat, xc: array<Word>)
    requires wa <= xa.Length && wb <= xb.Length && wa + wb <= xc.Length && xa != xc && xb != xc
    requires forall i | 0 <= i < xc.Length :: xc[i] == 0
    modifies xc
    ensures Val(xc[..wa + wb]) == Val(xa[..wa]) * Val(xb[..wb])
  {
    hide Val, P;
    ghost var a, b := xa[..wa], xb[..wb];
    ValZeros(xc[..][..wa]);
    ghost var now := xc[..];
    var j := 0;
    assert Val(b[..0]) == 0 by { ValZeros(b[..0]); }
    while j < wb
      invariant 0 <= j <= wb && now == xc[..]
      invariant Val(now[..j + wa]) == Val(a) * Val(b[..j])
      invariant forall i | j + wa <= i < xc.Length :: xc[i] == 0
      invariant xa[..wa] == a && xb[..wb] == b
    {
      ghost var before := now;
      assert xb[j] == b[j];
      AddRow(xa, wa, xb[j], xc, j);
      now := xc[..];
      assert xc[..j] == now[..j] && xc[j..j + wa + 1] == now[j..j + wa + 1];
      OuterStep(before, now, a, b, j);
      j := j + 1;
    }
    assert b[..j] == b && now[..wa + wb] == xc[..wa + wb];
  }

  /** `mult` */
  method Mult(p: Bigint, q: Bigint) returns (c: Bigint)
    requires p.Valid() && q.Valid()
    ensures fresh(c) && fresh(c.x) && c.Valid() && c.sign == 0
    ensures c.V() == p.V() * q.V()
    ensures c.wds > 0 ==> c.x[c.wds - 1] != 0
  {
    hide Val, P;
    var a, b := p, q;
    if a.wds < b.wds {
      a, b := q, p;
    }
    var k, wc := a.k, a.wds + b.wds;
    if wc > a.x.Length {
      k := k + 1;
    }
    c := new Bigint(k);
    forall i | 0 <= i < c.x.Length { c.x[i] := 0; }
    MultWords(a.x, a.wds, b.x, b.wds, c.x);
    ghost var all := c.x[..wc];
    while wc > 0 && c.x[wc - 1] == 0
      invariant 0 <= wc <= |all| <= c.x.Length && all == c.x[..|all|]
      invariant forall i | wc <= i < |all| :: all[i] == 0
    {
      wc := wc - 1;
    }
    c.wds := wc;
    ValTrim(all, wc);
    assert all[..wc] == c.x[..wc];
    assert Val(p.Words()) * Val(q.Words()) == Val(q.Words()) * Val(p.Words());
  }
}
