/** The key exchange of lua-crypt.c: multiplication and powers modulo a prime that almost fills 64
    bits, in arithmetic that wraps. */
module DhExchange {

  import opened Basics

  const W := 0x1_0000_0000_0000_0000

  /** The biggest prime of 64 bits. */
  const P := 0xffff_ffff_ffff_ffc5

  const G := 5

  type Word64 = x: int | 0 <= x < W

  function Pow(a: nat, b: nat): nat
  {
    if b == 0 then 1 else a * Pow(a, b - 1)
  }

  // ----- arithmetic modulo P -----

  lemma {:induction false} ModIs(x: nat, k: int, r: nat)
    requires x == k * P + r
    ensures x % P == r % P
  {
  }

  lemma {:induction false} DivModP(x: nat)
    ensures x == (x / P) * P + x % P && x % P < P
  {
  }

  lemma {:induction false} ModMul(a: nat, b: nat)
    ensures (a % P) * b % P == a * b % P
    ensures (a % P) * (b % P) % P == a * b % P
  {
    var q, r := a / P, a % P;
    var s, t := b / P, b % P;
    DivModP(a);
    DivModP(b);
    assert a * b == r * b + (q * b) * P by { Expand(q, r, b); }
    assert r * b == r * t + (r * s) * P by {
      Expand(s, t, r);
      assert b * r == r * b && t * r == r * t && s * r == r * s;
    }
    ModIs(a * b, q * b, r * b);
    ModIs(r * b, r * s, r * t);
  }

  lemma {:induction false} MulCong(t: nat, e: nat, u: nat, f: nat)
    requires t % P == e % P && u % P == f % P
    ensures t * u % P == e * f % P
  {
    ModMul(t, u);
    ModMul(e, f);
  }

  lemma {:induction false} Expand(q: nat, r: nat, b: nat)
    ensures (q * P + r) * b == r * b + (q * b) * P
  {
  }

  lemma {:induction false} PowMod(a: nat, b: nat)
    ensures Pow(a % P, b) % P == Pow(a, b) % P
  {
    if b > 0 {
      PowMod(a, b - 1);
      MulCong(a % P, a, Pow(a % P, b - 1), Pow(a, b - 1));
    }
  }

  lemma {:induction false} PowSum(a: nat, b: nat, c: nat)
    ensures Pow(a, b + c) == Pow(a, b) * Pow(a, c)
    decreases b
  {
    if b > 0 {
      PowSum(a, b - 1, c);
      assert a * (Pow(a, b - 1) * Pow(a, c)) == a * Pow(a, b - 1) * Pow(a, c);
    }
  }

  lemma {:induction false} PowPow(a: nat, b: nat, c: nat)
    ensures Pow(Pow(a, b), c) == Pow(a, b * c)
    decreases c
  {
    if c > 0 {
      PowPow(a, b, c - 1);
      PowSum(a, b, b * (c - 1));
      assert b * c == b + b * (c - 1);
    } else {
      assert b * c == 0;
    }
  }

  // ----- the code -----

  /** The sum of `mul_mod_p`; it does not overflow. */
  method AddModP(m: Word64, a: Word64) returns (r: Word64, ghost c: nat)
    requires m < P && a <= P
    ensures r < P && r + c * P == m + a && c <= 1
  {
    var t := (P - a) % W;
    if m >= t {
      r, c := (m - t) % W, 1;
    } else {
      r, c := (m + a) % W, 0;
    }
  }

  /** The doubling of `mul_mod_p`; it may wrap around, and comes out right. */
  method DoubleModP(a: Word64) returns (r: Word64, ghost c: nat)
    requires a <= P
    ensures r <= P && r + c * P == 2 * a && c <= 1
  {
    if a >= (P - a) % W {
      r, c := ((a * 2) % W - P) % W, 1;
    } else {
      r, c := (a * 2) % W, 0;
    }
  }

  /** `mul_mod_p` */
  method MulModP(a0: Word64, b0: Word64) returns (m: Word64)
    requires a0 <= P
    ensures m < P && m == a0 * b0 % P
  {
    m := 0;
    var a: Word64, b: Word64 := a0, b0;
    ghost var k, c: nat := 0, 0;
    while b != 0
      invariant m < P && a <= P
      invariant m + a * b + k * P == a0 * b0
      decreases b
    {
      ghost var m0, a1, h := m, a, b / 2;
      if b % 2 == 1 {
        m, c := AddModP(m, a);
        k := k + c;
      }
      assert m + k * P + a1 * b - (if b % 2 == 1 then a1 else 0) == a0 * b0;
      a, c := DoubleModP(a);
      HalveStep(a1, b, h, a, c);
      k := k + c * h;
      b := b / 2;
    }
    ModIs(a0 * b0, k, m);
  }

  lemma {:induction false} HalveStep(a: nat, b: nat, h: nat, a2: nat, c: nat)
    requires h == b / 2 && a2 + c * P == 2 * a
    ensures a * b == a2 * h + (c * h) * P + (if b % 2 == 1 then a else 0)
  {
    assert b == 2 * h + b % 2;
    assert a * b == (2 * a) * h + a * (b % 2) by { assert a * (2 * h + b % 2) == (2 * a) * h + a * (b % 2); }
    assert (a2 + c * P) * h == a2 * h + (c * h) * P;
  }

  /** `pow_mod_p`: a power of 1 is not reduced. */
  method PowModP(a: Word64, b: Word64) returns (r: Word64)
    requires a <= P && b >= 1
    ensures r <= P && r % P == Pow(a, b) % P && (b > 1 ==> r < P) && (b == 1 ==> r == a)
    decreases b
  {
    PowSplit(a, b);
    hide Pow, CongruentModP;
    if b == 1 {
      IsCongruent(a, Pow(a, b));
      return a;
    }
    ghost var e := Pow(a, b / 2);
    var t := PowModP(a, b / 2);
    IsCongruent(t, e);
    r := MulModP(t, t);
    SquareCongruent(r, t, e);
    if b % 2 == 1 {
      t := r;
      r := MulModP(t, a);
      TimesCongruent(r, t, a, e * e);
    }
    CongruentIs(r, Pow(a, b));
  }

  /** The same modulo P. */
  ghost predicate CongruentModP(x: nat, y: nat)
  {
    x % P == y % P
  }

  lemma {:induction false} IsCongruent(x: nat, y: nat)
    requires x % P == y % P
    ensures CongruentModP(x, y)
  {
  }

  lemma {:induction false} CongruentIs(x: nat, y: nat)
    requires CongruentModP(x, y)
    ensures x % P == y % P
  {
  }

  lemma {:induction false} SquareCongruent(r: nat, t: nat, e: nat)
    requires r == t * t % P && CongruentModP(t, e)
    ensures CongruentModP(r, e * e)
  {
    MulCong(t, e, t, e);
    ModIs(r, 0, r);
  }

  lemma {:induction false} TimesCongruent(r: nat, t: nat, a: nat, f: nat)
    requires r == t * a % P && CongruentModP(t, f)
    ensures CongruentModP(r, f * a)
  {
    MulCong(t, f, a, a);
    ModIs(r, 0, r);
  }

  lemma {:induction false} PowSplit(a: nat, b: nat)
    requires b >= 1
    ensures var e := Pow(a, b / 2); Pow(a, b) == if b % 2 == 1 then e * e * a else e * e
    ensures b == 1 ==> Pow(a, b) == a
  {
    var h := b / 2;
    PowSum(a, h, h);
    if b % 2 == 1 {
      assert Pow(a, b) == a * Pow(a, h + h);
      assert a * Pow(a, h + h) == Pow(a, h + h) * a;
    }
    if b == 1 { assert Pow(a, 1) == a * Pow(a, 0); }
  }

  /** `powmodp`: a^b mod P, except that the prime itself to the power of 1 is not reduced. */
  method PowModAny(a: Word64, b: Word64) returns (r: Word64)
    requires b >= 1
    ensures r == Pow(a, b) % P <==> !(a == P && b == 1)
    ensures a == P && b == 1 ==> r == P
  {
    var c := a;
    if c > P {
      c := c % P;
      PowMod(a, b);
    }
    r := PowModP(c, b);
    if b == 1 { assert Pow(c, 1) == c * Pow(c, 0) == c; }
  }

  /** `ldhexchange` */
  method Exchange(x: Word64) returns (r: Result<Word64>)
    ensures x == 0 ==> r == Err
    ensures x != 0 ==> r == Ok(Pow(G, x) % P) && r.value != 0
  {
    if x == 0 {
      return Err;
    }
    var v := PowModAny(G, x);
    NotZero(x);
    r := Ok(v);
  }

  /** `ldhsecret` */
  method Secret(x: Word64, y: Word64) returns (r: Result<Word64>)
    ensures x == 0 || y == 0 ==> r == Err
    ensures x != 0 && y != 0 ==> r.Ok? && (r.value == Pow(x, y) % P <==> !(x == P && y == 1))
    ensures x == P && y == 1 ==> r == Ok(P)
  {
    if x == 0 || y == 0 {
      return Err;
    }
    var v := PowModAny(x, y);
    r := Ok(v);
  }

  /** The inverse of 5. */
  const INVERSE := 7378697629483820623

  /** No power of 5 is a multiple of P. */
  lemma {:induction false} NotZero(x: nat)
    ensures Pow(G, x) % P != 0
  {
    if x > 0 {
      NotZero(x - 1);
      var v := Pow(G, x - 1);
      assert G * INVERSE == 2 * P + 1;
      ModMul(Pow(G, x), INVERSE);
      assert Pow(G, x) * INVERSE == (2 * v) * P + v;
      ModIs(Pow(G, x) * INVERSE, 2 * v, v);
    }
  }

  /** Both sides compute the same secret. */
  lemma {:induction false} SameSecret(x: nat, y: nat)
    ensures Pow(Pow(G, x) % P, y) % P == Pow(Pow(G, y) % P, x) % P == Pow(G, x * y) % P
  {
    PowMod(Pow(G, x), y);
    PowMod(Pow(G, y), x);
    PowPow(G, x, y);
    PowPow(G, y, x);
    assert x * y == y * x;
  }

  /** The whole exchange between two parties. */
  method Agree(x: Word64, y: Word64) returns (sx: Result<Word64>, sy: Result<Word64>)
    requires x != 0 && y != 0
    ensures sx == sy == Ok(Pow(G, x * y) % P)
  {
    var ex := Exchange(x);
    var ey := Exchange(y);
    sx := Secret(ey.value, x);
    sy := Secret(ex.value, y);
    SameSecret(x, y);
  }
}
