/** Comparison, difference, shift and the one-digit division of dtoa.c. */
module BigIntDivide {

  import opened BigInt

  // ----- comparison -----

  lemma {:induction false} PGrows(i: nat, j: nat)
    requires i <= j
    ensures P(i) <= P(j)
  {
    PSum(i, j - i);
    MulMono(1, P(j - i), P(i));
    assert P(i) * P(j - i) == P(j - i) * P(i);
  }

  /** With the words above place i equal, place i decides. */
  lemma Decides(a: seq<Word>, b: seq<Word>, i: nat)
    requires |a| == |b| && i < |a| && a[i] < b[i] && a[i + 1..] == b[i + 1..]
    ensures Val(a) < Val(b)
  {
    hide Val, P;
    assert a == a[..i + 1] + a[i + 1..] && b == b[..i + 1] + b[i + 1..];
    ValConcat(a[..i + 1], a[i + 1..]);
    ValConcat(b[..i + 1], b[i + 1..]);
    ValStep(a, i);
    ValStep(b, i);
    ValBound(a[..i]);
    MulMono(a[i] + 1, b[i], P(i));
    Distribute(a[i], 1, P(i));
  }

  lemma LongerIsMore(a: seq<Word>, b: seq<Word>)
    requires |a| > |b|
    requires |a| > 1 ==> a[|a| - 1] != 0
    ensures Val(a) > Val(b) || (|a| == 1 && Val(b) == 0)
  {
    hide Val, P;
    if |a| > 1 {
      TopWord(a);
      ValBound(b);
      PGrows(|b|, |a| - 1);
    } else {
      ValZeros(b);
    }
  }

  /** `cmp`: the sign of a - b. */
  method Cmp(a: Bigint, b: Bigint) returns (j: int)
    requires a.Valid() && b.Valid() && a.Trimmed() && b.Trimmed()
    requires (a.wds > 0 || b.V() > 0) && (b.wds > 0 || a.V() > 0)
    ensures j < 0 <==> a.V() < b.V()
    ensures j == 0 <==> a.V() == b.V()
  {
    hide Val, P;
    ghost var s, t := a.Words(), b.Words();
    j := a.wds - b.wds;
    if j != 0 {
      if j > 0 { LongerIsMore(s, t); } else { LongerIsMore(t, s); }
      if a.wds == 0 || b.wds == 0 { Empty(); }
      if j > 0 && |s| == 1 { assert t == []; }
      if j < 0 && |t| == 1 { assert s == []; }
      return;
    }
    if a.wds == 0 { Empty(); assert false; }
    var i := a.wds;
    while true
      invariant 0 < i <= a.wds && s[i..] == t[i..]
      decreases i
    {
      i := i - 1;
      if a.x[i] != b.x[i] {
        assert s[i] == a.x[i] && t[i] == b.x[i];
        if s[i] < t[i] { Decides(s, t, i); } else { Decides(t, s, i); }
        return if a.x[i] < b.x[i] then -1 else 1;
      }
      assert s[i] == t[i] && s[i..] == [s[i]] + s[i + 1..] && t[i..] == [t[i]] + t[i + 1..];
      if i <= 0 {
        break;
      }
    }
    assert s == s[0..] && t == t[0..];
    return 0;
  }

  lemma Empty()
    ensures Val([]) == 0
  {
  }

  lemma NotEmpty(s: seq<Word>)
    requires Val(s) > 0
    ensures s != []
  {
  }

  // ----- subtraction -----

  /** One word of a subtracted row: `carry` from the product and `borrow` from the difference. */
  method SubWord(w: Word, x: Word, q: Word, carry0: Word, borrow0: nat) returns (low: Word, carry: Word, borrow: nat)
    requires borrow0 <= 1
    ensures borrow <= 1 && low + x * q == w - (carry0 + borrow0) + (carry + borrow) * B
  {
    var ys := x * q + carry0;
    RowBound(x, q, 0, carry0);
    carry := ys / B;
    var y := w - ys % B - borrow0;
    borrow := if y < 0 then 1 else 0;
    Borrowed(y, borrow);
    low := y % B;
  }

  /** One step of a subtracted row: carry and borrow weigh P(i). */
  lemma SubStep(before: seq<Word>, after: seq<Word>, o: seq<Word>, s: seq<Word>, i: nat, q: nat, c0: nat, c: nat)
    requires |before| == |after| == |o| == |s| && i < |s|
    requires after[..i] == before[..i] && after[i] + s[i] * q == o[i] - c0 + c * B
    requires Val(before[..i]) + Val(s[..i]) * q == Val(o[..i]) + c0 * P(i)
    ensures Val(after[..i + 1]) + Val(s[..i + 1]) * q == Val(o[..i + 1]) + c * P(i + 1)
  {
    hide Val;
    var p := P(i);
    assert P(i + 1) == B * p;
    hide P;
    ValStep(after, i);
    ValStep(o, i);
    ValStep(s, i);
    SubAlgebra(after[i], s[i], q, o[i], c0, c, p, Val(s[..i]));
  }

  lemma Borrowed(y: int, borrow: nat)
    requires -B <= y < B && borrow == (if y < 0 then 1 else 0)
    ensures y % B == y + borrow * B
  {
  }

  lemma SubAlgebra(y: int, s: int, q: int, o: int, c0: int, c: int, p: int, v: int)
    requires y + s * q == o - c0 + c * B
    ensures y * p + (v + s * p) * q == o * p - c0 * p + c * (B * p) + v * q
  {
    Distribute(y, s * q, p);
    Distribute(v, s * p, q);
    Assoc(s, p, q);
    Assoc(s, q, p);
    Distribute(o - c0, c * B, p);
    Distribute(o, -c0, p);
    Assoc(c, B, p);
    assert s * (p * q) == s * (q * p);
  }

  /** The subtracting loop of `quorem`: q times the words of `sx` from those of `bx`. */
  method SubtractRow(sx: array<Word>, n: nat, q: Word, bx: array<Word>)
    requires n <= sx.Length && n <= bx.Length && sx != bx
    requires Val(sx[..n]) * q <= Val(bx[..n])
    modifies bx
    ensures Val(bx[..n]) == Val(old(bx[..n])) - Val(sx[..n]) * q
    ensures bx[n..] == old(bx[n..])
  {
    hide Val, P;
    ghost var s, o := sx[..n], bx[..n];
    var i, borrow := 0, 0;
    var carry: Word := 0;
    Empty();
    assert bx[..n][..0] == [] && s[..0] == [] && o[..0] == [];
    while i < n
      invariant 0 <= i <= n && borrow <= 1
      invariant Val(bx[..n][..i]) + Val(s[..i]) * q == Val(o[..i]) + (carry + borrow) * P(i)
      invariant bx[i..] == old(bx[i..])
    {
      ghost var before, c0 := bx[..n], carry + borrow;
      assert before[i] == bx[i] == o[i] && sx[i] == s[i];
      var low: Word;
      low, carry, borrow := SubWord(bx[i], sx[i], q, carry, borrow);
      bx[i] := low;
      assert bx[..n] == before[i := low];
      SubStep(before, bx[..n], o, s, i, q, c0, carry + borrow);
      i := i + 1;
    }
    assert bx[..n][..n] == bx[..n] && s[..n] == s && o[..n] == o;
    ValBound(bx[..n]);
    NothingLeft(Val(bx[..n]), Val(o) - Val(s) * q, carry + borrow, P(n));
  }

  lemma PZero()
    ensures P(0) == 1
  {
  }

  lemma NothingLeft(r: int, d: int, c: int, p: int)
    requires r == d + c * p && 0 <= r < p && d >= 0 && c >= 0
    ensures c == 0 && r == d
  {
    if c > 0 { MulMono(1, c, p); }
  }

  /** The two loops of `diff`. */
  method DiffWords(xa: array<Word>, wa: nat, xb: array<Word>, wb: nat, xc: array<Word>)
    requires wb <= wa <= xa.Length && wb <= xb.Length && wa <= xc.Length && xc != xa && xc != xb
    requires Val(xb[..wb]) <= Val(xa[..wa])
    modifies xc
    ensures Val(xc[..wa]) == Val(xa[..wa]) - Val(xb[..wb])
  {
    hide Val, P;
    ghost var a, b := xa[..wa], xb[..wb] + Zeros(wa - wb);
    ValTrim(b, wb);
    assert b[..wb] == xb[..wb];
    var i, borrow := 0, 0;
    Empty();
    PZero();
    assert xc[..wa][..0] == [] && a[..0] == [] && b[..0] == [];
    while i < wa
      invariant 0 <= i <= wa && 0 <= borrow <= 1 && xa[..wa] == a && xb[..wb] == b[..wb]
      invariant Val(xc[..wa][..i]) + Val(b[..i]) * 1 == Val(a[..i]) + borrow * P(i)
    {
      ghost var before, borrow0 := xc[..wa], borrow;
      assert a[i] == xa[i];
      var y := xa[i] - borrow;
      if i < wb {
        assert b[i] == xb[i];
        y := xa[i] - xb[i] - borrow;
      }
      assert y == a[i] - b[i] - borrow;
      borrow := if y < 0 then 1 else 0;
      Borrowed(y, borrow);
      var low: Word := y % B;
      xc[i] := low;
      assert xc[..wa] == before[i := low];
      SubStep(before, xc[..wa], a, b, i, 1, borrow0, borrow);
      i := i + 1;
    }
    assert xc[..wa][..wa] == xc[..wa] && a[..wa] == a && b[..wa] == b;
    ValBound(xc[..wa]);
    NothingLeft(Val(xc[..wa]), Val(a) - Val(b), borrow, P(wa));
  }

  function Zeros(n: nat): (s: seq<Word>)
    ensures |s| == n && forall i | 0 <= i < n :: s[i] == 0
  {
    if n == 0 then [] else Zeros(n - 1) + [0]
  }

  /** `diff`: the distance of a and b, with a sign when a is the smaller. */
  method Diff(a: Bigint, b: Bigint) returns (c: Bigint)
    requires a.Valid() && b.Valid() && a.Trimmed() && b.Trimmed() && a.wds > 0 && b.wds > 0
    ensures fresh(c) && fresh(c.x) && c.Valid() && c.Trimmed() && c.wds > 0
    ensures c.sign == (if a.V() < b.V() then 1 else 0)
    ensures c.V() == if a.V() < b.V() then b.V() - a.V() else a.V() - b.V()
  {
    hide Val, P;
    var j := Cmp(a, b);
    if j == 0 {
      c := new Bigint(0);
      c.wds := 1;
      c.x[0] := 0;
      ValZeros(c.Words());
      return;
    }
    var hi, lo := a, b;
    if j < 0 {
      hi, lo := b, a;
    }
    if hi.wds < lo.wds { LongerIsMore(lo.Words(), hi.Words()); }
    c := new Bigint(hi.k);
    c.sign := if j < 0 then 1 else 0;
    DiffWords(hi.x, hi.wds, lo.x, lo.wds, c.x);
    c.wds := TopNonzero(c.x, hi.wds);
  }

  /** The last loop of `diff`. */
  method TopNonzero(x: array<Word>, n: nat) returns (wa: nat)
    requires n <= x.Length && Val(x[..n]) > 0
    ensures 0 < wa <= n && x[wa - 1] != 0 && Val(x[..wa]) == Val(x[..n])
  {
    hide Val, P;
    ghost var all := x[..n];
    if n == 0 { Empty(); assert false; }
    wa := n;
    while x[wa - 1] == 0
      invariant 0 < wa <= n
      invariant forall i | wa <= i < n :: all[i] == 0
      decreases wa
    {
      assert all[wa - 1] == 0;
      if wa == 1 { ValZeros(all); assert false; }
      wa := wa - 1;
    }
    ValTrim(all, wa);
    assert all[..wa] == x[..wa];
  }

  // ----- left shift -----

  lemma {:induction false} PowSum(i: nat, j: nat)
    ensures Pow2(i + j) == Pow2(i) * Pow2(j)
    decreases i
  {
    if i > 0 {
      PowSum(i - 1, j);
      Assoc(2, Pow2(i - 1), Pow2(j));
    }
  }

  lemma Pow32()
    ensures Pow2(32) == B
  {
    assert Pow2(8) == 256;
    PowSum(8, 8);
    PowSum(16, 16);
  }

  lemma {:induction false} PowWords(n: nat)
    ensures Pow2(32 * n) == P(n)
  {
    if n > 0 {
      PowWords(n - 1);
      Pow32();
      PowSum(32, 32 * (n - 1));
    }
  }

  /** A shifted word with the bits of the word below moved in: `|` joins bits that are not both set. */
  lemma ShiftWord(x: Word, z: nat, m: nat, d: nat)
    requires m * d == B && z < m && d > 0
    ensures (x * m) % B + z == (x * m + z) % B
    ensures x / d == (x * m + z) / B
    ensures x / d < m
  {
    var hi, lo := x / d, x % d;
    DivMod(x, d);
    assert x * m == hi * B + lo * m by {
      Distribute(d * hi, lo, m);
      assert d * hi * m == hi * (m * d) by { Assoc(hi, d, m); }
    }
    LowBits(lo, z, m, d);
    Split(x * m, hi, lo * m);
    Split(x * m + z, hi, lo * m + z);
    assert hi * d == d * hi;
    if hi >= m { MulMono(m, hi, d); }
  }

  lemma LowBits(lo: nat, z: nat, m: nat, d: nat)
    requires m * d == B && z < m && lo < d
    ensures 0 <= lo * m && lo * m + z < B
  {
    MulMono(lo + 1, d, m);
    Distribute(lo, 1, m);
    NonNegative(lo, m);
    assert d * m == m * d;
  }

  lemma Split(y: nat, hi: nat, low: nat)
    requires y == hi * B + low && low < B
    ensures y / B == hi && y % B == low
  {
  }

  lemma DivMod(x: nat, d: nat)
    requires d > 0
    ensures x == d * (x / d) + x % d && x % d < d
  {
  }

  /** The shifting loop, for a shift inside a word, and its last word. */
  method ShiftBits(x: array<Word>, wds: nat, x1: array<Word>, n: nat, k: nat) returns (z: Word)
    requires 0 < k < 32 && wds <= x.Length && n + wds < x1.Length && x != x1
    modifies x1
    ensures Val(x1[n..n + wds + 1]) == Val(x[..wds]) * Pow2(k)
    ensures z == x1[n + wds] && x1[..n] == old(x1[..n])
  {
    hide Val, P, Pow2;
    ghost var s, m := x[..wds], Pow2(k);
    var k1 := 32 - k;
    PowSum(k, k1);
    Pow32();
    ShiftWord(0, 0, m, Pow2(k1));
    Empty();
    PZero();
    var i := 0;
    z := 0;
    assert x1[n..n + wds][..0] == [] && s[..0] == [];
    while i < wds
      invariant 0 <= i <= wds && z < m
      invariant Val(x1[n..n + wds][..i]) + z * P(i) == Val(s[..i]) * m + 0
      invariant x1[..n] == old(x1[..n])
    {
      ghost var before, z0 := x1[n..n + wds], z;
      assert s[i] == x[i];
      ShiftWord(s[i], z0, m, Pow2(k1));
      x1[n + i] := (x[i] * Pow2(k)) % B + z;
      z := x[i] / Pow2(k1);
      ghost var y: nat := s[i] * m + z0;
      ghost var low: Word := y % B;
      ghost var after := x1[n..n + wds];
      assert after == before[i := low];
      Replaced(before, s, i, low);
      MultAddStep(before[i := s[i]], after, s, i, m, 0, z0, z);
      i := i + 1;
    }
    ghost var low := x1[n..n + wds];
    assert low[..wds] == low && s[..wds] == s;
    x1[n + wds] := z;
    assert x1[n..n + wds + 1] == low + [z];
    ValSnoc(low, z);
  }

  lemma Replaced(before: seq<Word>, s: seq<Word>, i: nat, w: Word)
    requires i < |before| && i < |s|
    ensures before[i := s[i]][..i] == before[..i]
    ensures before[i := s[i]][i := w] == before[i := w]
  {
  }

  /** The words of `lshift`: `n` zeros, then the shifted words. */
  method ShiftWords(x: array<Word>, wds: nat, x1: array<Word>, k: nat) returns (n1: nat)
    requires 0 < wds <= x.Length && k / 32 + wds < x1.Length && x != x1
    modifies x1
    ensures n1 == k / 32 + wds || (n1 == k / 32 + wds + 1 && x1[n1 - 1] != 0)
    ensures Val(x1[k / 32..n1]) == Val(x[..wds]) * Pow2(k % 32)
    ensures forall l | 0 <= l < k / 32 :: x1[l] == 0
  {
    hide Val, P, Pow2;
    var n := k / 32;
    var j := 0;
    while j < n
      invariant 0 <= j <= n && forall l | 0 <= l < j :: x1[l] == 0
    {
      x1[j] := 0;
      j := j + 1;
    }
    n1 := n + wds;
    if k % 32 > 0 {
      var z := ShiftBits(x, wds, x1, n, k % 32);
      forall l | 0 <= l < n ensures x1[l] == 0 { assert x1[l] == x1[..n][l]; }
      if z != 0 {
        n1 := n1 + 1;
      } else {
        assert x1[n..n1 + 1] == x1[n..n1] + [0];
        ValSnoc(x1[n..n1], 0);
      }
    } else {
      ghost var s := x[..wds];
      j := 0;
      while j < wds
        invariant 0 <= j <= wds && forall l | 0 <= l < n :: x1[l] == 0
        invariant x1[n..n + j] == s[..j]
      {
        x1[n + j] := x[j];
        assert s[j] == x[j];
        j := j + 1;
      }
      assert s[..j] == s;
      PowOne();
    }
  }

  /** `lshift`: b * 2^k, in a new number. */
  method LShift(b: Bigint, k: nat) returns (r: Bigint)
    requires b.Valid() && b.wds > 0
    ensures fresh(r) && fresh(r.x) && r.Valid() && r.wds > 0 && r.sign == 0
    ensures r.V() == b.V() * Pow2(k)
    ensures b.Trimmed() && b.V() > 0 ==> r.Trimmed()
  {
    hide Val, P;
    var n := k / 32;
    var k1, n1, i := b.k, n + b.wds + 1, b.x.Length;
    while n1 > i
      invariant i == Pow2(k1)
      decreases n1 - i
    {
      k1, i := k1 + 1, 2 * i;
    }
    r := new Bigint(k1);
    r.wds := ShiftWords(b.x, b.wds, r.x, k);
    assert r.Words()[n..] == r.x[n..r.wds];
    ShiftedValue(r.Words(), b.Words(), n, k, Pow2(k % 32));
    if b.Trimmed() && b.V() > 0 {
      ShiftedTop(r.x[n..r.wds], b.Words(), Pow2(k % 32));
    }
  }

  lemma PowOne()
    ensures Pow2(0) == 1
  {
  }

  lemma ShiftedValue(r: seq<Word>, s: seq<Word>, n: nat, k: nat, m: nat)
    requires n == k / 32 && m == Pow2(k % 32) && n <= |r|
    requires forall l | 0 <= l < n :: r[l] == 0
    requires Val(r[n..]) == Val(s) * m
    ensures Val(r) == Val(s) * Pow2(k)
  {
    hide Val, P, Pow2;
    assert r == r[..n] + r[n..];
    ValConcat(r[..n], r[n..]);
    ValZeros(r[..n]);
    PowWords(n);
    PowSum(32 * n, k % 32);
    assert P(n) * (Val(s) * m) == Val(s) * (P(n) * m) by { Assoc(P(n), Val(s), m); Assoc(Val(s), P(n), m); }
  }

  /** With the old number trimmed, so is the new one. */
  lemma ShiftedTop(t: seq<Word>, s: seq<Word>, m: nat)
    requires |s| > 0 && Val(s) > 0 && (|s| > 1 ==> s[|s| - 1] != 0) && m > 0
    requires Val(t) == Val(s) * m
    requires |t| == |s| || (|t| == |s| + 1 && t[|t| - 1] != 0)
    ensures t[|t| - 1] != 0
  {
    hide Val, P;
    if |t| == |s| {
      PZero();
      if |s| > 1 { TopWord(s); }
      TopWord(t);
      Grows(Val(s), m);
    }
  }
}
