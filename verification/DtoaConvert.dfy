/** From a ratio of big integers to its decimal digits, correctly rounded: scaling, the digit loop
    and the round-off of dtoa.c, in the modes with a fixed number of digits. */
module DtoaConvert {

  import opened BigInt
  import opened BigIntDivide
  import opened DtoaDigits

  // ----- decimal digits -----

  function Pow10(n: nat): (p: nat)
    ensures p > 0
  {
    if n == 0 then 1 else 10 * Pow10(n - 1)
  }

  /** The number written by a string of digits. */
  function DigVal(s: seq<nat>): nat
  {
    if s == [] then 0 else 10 * DigVal(s[..|s| - 1]) + s[|s| - 1]
  }

  /** Digits as dtoa returns them: neither leading nor trailing zeros. */
  ghost predicate IsDecimal(s: seq<nat>)
  {
    s != [] && s[0] != 0 && s[|s| - 1] != 0 && AreDigits(s)
  }

  ghost predicate AreDigits(s: seq<nat>)
  {
    forall i | 0 <= i < |s| :: s[i] < 10
  }

  /** a / d rounded to the nearest integer, ties to the even one. */
  function HalfEven(a: nat, d: nat): nat
    requires d > 0
  {
    var q, r := a / d, a % d;
    if 2 * r > d || (2 * r == d && q % 2 == 1) then q + 1 else q
  }

  lemma HalfEvenIs(a: nat, d: nat, q: nat, r: nat)
    requires a == d * q + r && r < d
    ensures HalfEven(a, d) == if 2 * r > d || (2 * r == d && q % 2 == 1) then q + 1 else q
  {
    Quotient(a, d, q, r);
  }

  /** `HalfEven` is the nearest integer, and the even one of two that are equally near. */
  lemma HalfEvenNearest(a: nat, d: nat, n: nat)
    requires d > 0
    ensures var e: int := 2 * (n * d - a);
            HalfEven(a, d) == n <==> 0 <= d + e <= 2 * d && (d + e in {0, 2 * d} ==> n % 2 == 0)
  {
    var q, r := a / d, a % d;
    DivMod(a, d);
    var x := (n - q) * d;
    assert n * d - a == x - r by { Distribute(n - q, q, d); assert q * d == d * q; }
    if n >= q + 2 {
      MulMono(2, n - q, d);
    } else if n <= q - 1 {
      MulMono(n - q, -1, d);
    } else if n == q + 1 {
      assert x == d;
    } else {
      assert x == 0;
    }
  }

  lemma HalfEvenScaled(a: nat, d: nat, t: nat)
    requires d > 0 && t > 0
    ensures d * t > 0 && HalfEven(a * t, d * t) == HalfEven(a, d)
  {
    var q, r := a / d, a % d;
    DivMod(a, d);
    MulMono(1, d, t);
    MulMono(r + 1, d, t);
    Distribute(r, 1, t);
    NonNegative(r, t);
    assert a * t == (d * t) * q + r * t by {
      Distribute(d * q, r, t);
      assert (d * t) * q == d * q * t by { Assoc(d, t, q); Assoc(d, q, t); assert t * q == q * t; }
    }
    HalfEvenIs(a * t, d * t, q, r * t);
    CompareScaled(2 * r, d, t);
    assert 2 * r * t == 2 * (r * t);
  }

  lemma CompareScaled(x: int, y: int, t: int)
    requires t > 0
    ensures x * t < y * t <==> x < y
    ensures x * t == y * t <==> x == y
  {
    if x < y { MulMono(x + 1, y, t); Distribute(x, 1, t); }
    if x > y { MulMono(y + 1, x, t); Distribute(y, 1, t); }
  }

  lemma {:induction false} DigBound(s: seq<nat>)
    requires AreDigits(s)
    ensures DigVal(s) < Pow10(|s|)
    decreases |s|
  {
    if s != [] { DigBound(s[..|s| - 1]); }
  }

  lemma DigSnoc(s: seq<nat>, d: nat)
    ensures DigVal(s + [d]) == 10 * DigVal(s) + d
  {
    assert (s + [d])[..|s|] == s;
  }

  lemma {:induction false} DigPositive(s: seq<nat>)
    requires s != [] && s[0] != 0
    ensures DigVal(s) > 0
    decreases |s|
  {
    if |s| > 1 { DigPositive(s[..|s| - 1]); }
  }

  lemma Tens(a: nat, n: nat)
    requires n > 0
    ensures (10 * a) * Pow10(n - 1) == a * Pow10(n) == 10 * (a * Pow10(n - 1))
  {
    Assoc(a, 10, Pow10(n - 1));
    Assoc(10, a, Pow10(n - 1));
  }

  lemma LastZero(v: nat, n: nat)
    ensures n == 0 ==> v * Pow10(n) == v
    ensures n > 0 ==> var x := v * Pow10(n); x % 10 == 0 && x / 10 == v * Pow10(n - 1)
  {
    if n > 0 { Tens(v, n); }
  }

  lemma {:induction false} SameExponent(v: nat, w: nat, m: nat, n: nat)
    requires v % 10 != 0 && w % 10 != 0 && v * Pow10(m) == w * Pow10(n)
    ensures v == w && m == n
    decreases m
  {
    hide Pow10;
    LastZero(v, m);
    LastZero(w, n);
    if m > 0 && n > 0 { SameExponent(v, w, m - 1, n - 1); }
  }

  /** The digits and the exponent of a number are unique: what dtoa returns is fixed by its value. */
  lemma DecimalUnique(s: seq<nat>, t: seq<nat>, m: nat, n: nat)
    requires IsDecimal(s) && IsDecimal(t)
    requires DigVal(s) * Pow10(m) == DigVal(t) * Pow10(n)
    ensures s == t && m == n
  {
    LastDigit(s);
    LastDigit(t);
    SameExponent(DigVal(s), DigVal(t), m, n);
    DigitsUnique(s, t);
  }

  lemma LastDigit(s: seq<nat>)
    requires IsDecimal(s)
    ensures DigVal(s) % 10 != 0
  {
    hide DigVal;
    DigLast(s);
  }

  lemma {:induction false} DigitsUnique(s: seq<nat>, t: seq<nat>)
    requires AreDigits(s) && AreDigits(t) && DigVal(s) == DigVal(t)
    requires (s != [] ==> s[0] != 0) && (t != [] ==> t[0] != 0)
    ensures s == t
    decreases |s|
  {
    hide DigVal;
    DigZero();
    if s != [] { DigPositive(s); }
    if t != [] { DigPositive(t); }
    if s != [] && t != [] {
      DigLast(s);
      DigLast(t);
      DigitsUnique(s[..|s| - 1], t[..|t| - 1]);
      assert s == s[..|s| - 1] + [s[|s| - 1]] && t == t[..|t| - 1] + [t[|t| - 1]];
    }
  }

  lemma DigZero()
    ensures DigVal([]) == 0
  {
  }

  lemma DigLast(s: seq<nat>)
    requires s != [] && s[|s| - 1] < 10
    ensures DigVal(s) % 10 == s[|s| - 1] && DigVal(s) / 10 == DigVal(s[..|s| - 1])
  {
    var v, d := DigVal(s[..|s| - 1]), s[|s| - 1];
    assert DigVal(s) == 10 * v + d;
    hide DigVal;
    Ten(v, d);
  }

  lemma Ten(v: nat, d: nat)
    requires d < 10
    ensures (10 * v + d) % 10 == d && (10 * v + d) / 10 == v
  {
  }

  // ----- rounding the digits -----

  /** The loop at `roundoff`: one more in the last place; nines become nothing, and all nines become
      a one with the exponent raised. */
  method RoundUp(s: seq<nat>, k: int) returns (t: seq<nat>, k1: int)
    requires s != [] && s[0] != 0 && AreDigits(s)
    ensures IsDecimal(t) && |t| <= |s| && (k1 == k || (k1 == k + 1 && t == [1]))
    ensures DigVal(t) * Pow10(|s| - |t| + k1 - k) == DigVal(s) + 1
  {
    hide DigVal;
    var p := |s|;
    assert s[..p] == s;
    DigZero();
    assert Pow10(0) == 1;
    hide Pow10;
    while true
      invariant 0 < p <= |s|
      invariant (DigVal(s[..p]) + 1) * Pow10(|s| - p) == DigVal(s) + 1
      decreases p
    {
      p := p - 1;
      assert s[..p + 1] == s[..p] + [s[p]];
      DigSnoc(s[..p], s[p]);
      if s[p] != 9 {
        break;
      }
      Tens(DigVal(s[..p]) + 1, |s| - p);
      if p == 0 {
        t, k1 := [1], k + 1;
        assert s[..p] == [] && [] + [1] == [1];
        DigSnoc([], 1);
        return;
      }
    }
    t, k1 := s[..p] + [s[p] + 1], k;
    DigSnoc(s[..p], s[p] + 1);
  }

  /** The loop that takes trailing zeros off. */
  method StripZeros(s: seq<nat>) returns (t: seq<nat>)
    requires s != [] && s[0] != 0 && AreDigits(s)
    ensures IsDecimal(t) && t <= s && DigVal(t) * Pow10(|s| - |t|) == DigVal(s)
  {
    hide DigVal;
    var p := |s|;
    assert s[..p] == s;
    DigZero();
    assert Pow10(0) == 1;
    hide Pow10;
    DigPositive(s);
    while s[p - 1] == 0
      invariant 0 < p <= |s|
      invariant DigVal(s[..p]) * Pow10(|s| - p) == DigVal(s)
      decreases p
    {
      p := p - 1;
      assert s[..p + 1] == s[..p] + [s[p]];
      DigSnoc(s[..p], s[p]);
      Tens(DigVal(s[..p]), |s| - p);
    }
    t := s[..p];
  }

  // ----- the digit loop -----

  /** One more digit of n, when q is the quotient of what was left. */
  lemma DigitStep(n: nat, d: nat, v: nat, left: nat, q: nat, r: nat, p: nat)
    requires n * p == d * (10 * v) + left && left == d * q + r
    ensures n * p == d * (10 * v + q) + r
    ensures n * (10 * p) == d * (10 * (10 * v + q)) + r * 10
  {
    Distribute(10 * v, q, d);
    assert n * (10 * p) == 10 * (n * p);
    assert d * (10 * (10 * v + q)) == 10 * (d * (10 * v + q));
  }

  /** A remainder below the divisor leaves a digit; with the first digit and every digit that leaves
      nothing not zero. */
  lemma DigitRange(d: nat, left: nat, q: nat, r: nat)
    requires left == d * q + r && r < d && left < 10 * d
    ensures q < 10
    ensures left >= d ==> q > 0
    ensures left > 0 && r == 0 ==> q > 0
  {
    assert d * q == q * d;
    if q >= 10 { MulMono(10, q, d); }
    if q <= 0 { assert d * q == 0; }
  }

  /** The loop that writes digits: it stops when nothing is left or after `ilim` digits. */
  method GenerateDigits(b0: Bigint, S: Bigint, ilim: nat) returns (s: seq<nat>, b: Bigint, exact: bool)
    requires b0.Valid() && S.Valid() && b0 != S && b0.x != S.x && b0.Trimmed() && b0.wds > 0
    requires Scaled(S.Words()) && S.V() <= b0.V() < 10 * S.V() && ilim > 0
    modifies b0, b0.x
    ensures s != [] && s[0] != 0 && AreDigits(s) && |s| <= ilim
    ensures b.Valid() && b.Trimmed() && b != S && b.x != S.x && b.V() < S.V()
    ensures old(b0.V()) * Pow10(|s| - 1) == S.V() * DigVal(s) + b.V()
    ensures exact <==> b.V() == 0
    ensures exact ==> s[|s| - 1] != 0
    ensures !exact ==> |s| == ilim && b.wds > 0
  {
    hide Val, P, DigVal, Pow10;
    ghost var n, d := b0.V(), S.V();
    b, s, exact := b0, [], false;
    DigZero();
    PowTen0();
    var i := 1;
    while true
      invariant i == |s| + 1 && i <= ilim
      invariant b.Valid() && b.Trimmed() && b != S && b.x != S.x && b.wds > 0
      invariant S.Valid() && Scaled(S.Words()) && S.V() == d
      invariant (b == b0 && b.x == old(b0.x)) || (fresh(b) && fresh(b.x))
      invariant 0 < b.V() < 10 * d && (s == [] ==> d <= b.V())
      invariant AreDigits(s) && (s != [] ==> s[0] != 0)
      invariant n * Pow10(|s|) == d * (10 * DigVal(s)) + b.V()
      decreases ilim - i
    {
      ghost var left, v, p := b.V(), DigVal(s), Pow10(|s|);
      var q := Quorem(b, S);
      ghost var r := b.V();
      DigitRange(d, left, q, r);
      DigitStep(n, d, v, left, q, r, p);
      DigSnoc(s, q);
      PowTen(|s|);
      s := s + [q];
      if b.x[0] == 0 && b.wds <= 1 {
        exact := true;
        return;
      }
      HasWord(b);
      if i >= ilim {
        return;
      }
      b := MultAdd(b, 10, 0);
      i := i + 1;
    }
  }

  lemma HasWord(b: Bigint)
    requires b.Valid() && b.V() > 0
    ensures b.wds > 0
  {
  }

  lemma PowTen0()
    ensures Pow10(0) == 1
  {
  }

  lemma PowTen(n: nat)
    ensures Pow10(n + 1) == 10 * Pow10(n)
  {
  }

  /** The decimal `s` with exponent k1, against k: n / d correctly rounded to `ilim` digits. */
  ghost predicate Rounded(s: seq<nat>, k: int, k1: int, n: nat, d: nat, ilim: nat)
    requires d > 0 && ilim > 0
  {
    var v := HalfEven(n * Pow10(ilim - 1), d);
    && IsDecimal(s) && |s| <= ilim
    && k1 == (if v == Pow10(ilim) then k + 1 else k)
    && DigVal(s) * Pow10(ilim - |s| + k1 - k) == v
  }

  /** The exponent is raised exactly when the rounded value needs one more digit. */
  lemma RaisedExponent(s: seq<nat>, k: int, k1: int, v: nat, ilim: nat)
    requires IsDecimal(s) && |s| <= ilim && (k1 == k || (k1 == k + 1 && s == [1]))
    requires DigVal(s) * Pow10(ilim - |s| + k1 - k) == v
    ensures v == Pow10(ilim) <==> k1 == k + 1
  {
    if k1 == k {
      DigBound(s);
      Pow10Sum(|s|, ilim - |s|);
      MulMono(DigVal(s) + 1, Pow10(|s|), Pow10(ilim - |s|));
      Distribute(DigVal(s), 1, Pow10(ilim - |s|));
    } else {
      assert s == [] + [1];
      DigSnoc([], 1);
    }
  }

  lemma {:induction false} Pow10Sum(i: nat, j: nat)
    ensures Pow10(i + j) == Pow10(i) * Pow10(j)
    decreases i
  {
    if i > 0 {
      Pow10Sum(i - 1, j);
      Assoc(10, Pow10(i - 1), Pow10(j));
    }
  }

  /** A decimal with nothing left over is the rounded value. */
  lemma ExactDigits(s: seq<nat>, n: nat, d: nat, ilim: nat)
    requires s != [] && |s| <= ilim && d > 0 && n * Pow10(|s| - 1) == d * DigVal(s)
    ensures HalfEven(n * Pow10(ilim - 1), d) == DigVal(s) * Pow10(ilim - |s|)
  {
    hide Pow10, DigVal;
    var p, t := Pow10(|s| - 1), Pow10(ilim - |s|);
    Pow10Sum(|s| - 1, ilim - |s|);
    Assoc(n, p, t);
    Assoc(d, DigVal(s), t);
    HalfEvenIs(n * Pow10(ilim - 1), d, DigVal(s) * t, 0);
  }

  /** The digit loop and the round-off after it. */
  method RoundedDigits(b0: Bigint, S: Bigint, ilim: nat, k: int) returns (s: seq<nat>, k1: int)
    requires b0.Valid() && S.Valid() && b0 != S && b0.x != S.x && b0.Trimmed() && b0.wds > 0
    requires Scaled(S.Words()) && S.V() <= b0.V() < 10 * S.V() && ilim > 0
    modifies b0, b0.x
    ensures Rounded(s, k, k1, old(b0.V()), S.V(), ilim)
  {
    hide Val, P, DigVal, Pow10, Scaled;
    ghost var n, d := b0.V(), S.V();
    var b, exact;
    s, b, exact := GenerateDigits(b0, S, ilim);
    k1 := k;
    if exact {
      ExactDigits(s, n, d, ilim);
      RaisedExponent(s, k, k1, HalfEven(n * Pow10(ilim - 1), d), ilim);
      return;
    }
    HalfEvenIs(n * Pow10(ilim - 1), d, DigVal(s), b.V());
    LastParity(s);
    ghost var r := b.V();
    b := LShift(b, 1);
    PowOne();
    assert Pow2(1) == 2;
    HasWord(b);
    ScaledTrim(S);
    var j := Cmp(b, S);
    if j > 0 || (j == 0 && s[|s| - 1] % 2 == 1) {
      s, k1 := RoundUp(s, k);
    } else {
      s := StripZeros(s);
    }
    RaisedExponent(s, k, k1, HalfEven(n * Pow10(ilim - 1), d), ilim);
  }

  lemma LastParity(s: seq<nat>)
    requires s != []
    ensures DigVal(s) % 2 == s[|s| - 1] % 2
  {
    var v := DigVal(s[..|s| - 1]);
    assert DigVal(s) == 10 * v + s[|s| - 1];
  }

  lemma ScaledTrim(b: Bigint)
    requires b.Valid() && Scaled(b.Words())
    ensures b.Trimmed() && b.wds > 0 && b.V() > 0
  {
    assert b.x[b.wds - 1] == b.Words()[b.wds - 1];
    ZeroTest(b.Words());
  }
}
