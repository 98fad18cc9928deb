/** The fixed-length modes of dtoa.c from a ratio and two binary scales to rounded digits. */
module DtoaFixed {

  import opened BigInt
  import opened BigIntDivide
  import opened DtoaDigits
  import opened DtoaConvert

  /** `hi0bits`: the number of leading zero bits of a word. */
  method Hi0Bits(x0: Word) returns (k: nat)
    ensures x0 == 0 ==> k == 32
    ensures x0 > 0 ==> k < 32 && 0x8000_0000 <= x0 * Pow2(k) < B
  {
    hide Pow2;
    var x: nat := x0;
    k := 0;
    Doublings();
    if x < 0x1_0000 { k, x := 16, x * 0x1_0000; }
    if x < 0x100_0000 { Further(x0, k, 8); k, x := k + 8, x * 0x100; }
    if x < 0x1000_0000 { Further(x0, k, 4); k, x := k + 4, x * 0x10; }
    if x < 0x4000_0000 { Further(x0, k, 2); k, x := k + 2, x * 4; }
    if x < 0x8000_0000 {
      Further(x0, k, 1);
      k := k + 1;
      if x < 0x4000_0000 {
        return 32;
      }
    }
  }

  lemma Further(x: nat, k: nat, j: nat)
    ensures x * Pow2(k + j) == x * Pow2(k) * Pow2(j)
  {
    PowSum(k, j);
    Assoc(x, Pow2(k), Pow2(j));
  }

  lemma Doublings()
    ensures Pow2(0) == 1 && Pow2(1) == 2 && Pow2(2) == 4 && Pow2(4) == 16 && Pow2(8) == 0x100 && Pow2(16) == 0x1_0000
  {
    assert Pow2(4) == 16;
    PowSum(4, 4);
    PowSum(8, 8);
  }

  /** A value in the right range for its length has a top word with four leading zero bits. */
  lemma ScaledByValue(r: seq<Word>, n: nat)
    requires |r| > 1 ==> r[|r| - 1] != 0
    requires 0x800_0000 * P(n) <= Val(r) < 0x1000_0000 * P(n)
    ensures Scaled(r)
  {
    assert P(n + 1) == B * P(n);
    hide Val, P;
    NotEmpty(r);
    var l := |r| - 1;
    TopBounds(r);
    ValBound(r);
    if l < n {
      PGrows(l + 1, n);
    } else if l > n {
      MulMono(1, r[l], P(l));
      PGrows(n + 1, l);
    } else {
      var t: nat := r[l];
      if t >= 0x1000_0000 { MulMono(0x1000_0000, t, P(n)); }
      if t + 1 <= 0x800_0000 { MulMono(t + 1, 0x800_0000, P(n)); }
    }
  }

  /** Shifting by the leading zeros less four, modulo the word, puts the top word in its range. */
  lemma ShiftScales(s: seq<Word>, h: nat, e: nat, r: seq<Word>)
    requires s != [] && h < 32 && 0x8000_0000 <= s[|s| - 1] * Pow2(h) < B
    requires (e + 4 - h) % 32 == 0
    requires (|r| > 1 ==> r[|r| - 1] != 0) && Val(r) == Val(s) * Pow2(e)
    ensures Scaled(r)
  {
    hide Val, P, Pow2;
    var n, t, m := |s| - 1, s[|s| - 1], (e + 4 - h) / 32;
    TopBounds(s);
    TwoShifts(e, h, m);
    PSum(n, m);
    TopFits(t, h);
    ShiftAlgebra(Val(s), t, P(n), Pow2(h), P(m), Pow2(e));
    ScaledByValue(r, n + m);
  }

  lemma TwoShifts(e: nat, h: nat, m: nat)
    requires e + 4 == h + 32 * m
    ensures Pow2(e) * 16 == Pow2(h) * P(m) && Pow2(h) > 0 && P(m) > 0
  {
    Doublings();
    PowSum(e, 4);
    PowSum(h, 32 * m);
    PowWords(m);
  }

  lemma TopFits(t: Word, h: nat)
    requires h < 32 && t * Pow2(h) < B
    ensures (t + 1) * Pow2(h) <= B
  {
    PowSum(32 - h, h);
    Pow32();
    hide Pow2;
    if t >= Pow2(32 - h) { MulMono(Pow2(32 - h), t, Pow2(h)); }
    MulMono(t + 1, Pow2(32 - h), Pow2(h));
  }

  lemma ShiftAlgebra(v: nat, t: nat, p: nat, h: nat, m: nat, e: nat)
    requires t * p <= v < (t + 1) * p && 0x8000_0000 <= t * h && (t + 1) * h <= B
    requires e * 16 == h * m && m > 0 && h > 0
    ensures 0x800_0000 * (p * m) <= v * e < 0x1000_0000 * (p * m)
  {
    var hm := h * m;
    NonNegative(h, m);
    MulMono(t * p, v, hm);
    MulMono(v + 1, (t + 1) * p, hm);
    Distribute(v, 1, hm);
    MulMono(1, h, m);
    assert hm > 0;
    NonNegative(p, m);
    MulMono(0x8000_0000, t * h, p * m);
    MulMono((t + 1) * h, B, p * m);
    Regroup(t, p, h, m);
    Regroup(t + 1, p, h, m);
    assert v * hm == v * (e * 16) == 16 * (v * e);
  }

  lemma Regroup(t: int, p: int, h: int, m: int)
    ensures t * p * (h * m) == t * h * (p * m)
  {
    Assoc(t, p, h * m);
    Assoc(p, h, m);
    Assoc(h, p, m);
    Assoc(t, h, p * m);
    assert p * h == h * p;
  }

  /** `dshift`: the shift that scales `b`, after one by `p2`. */
  method DShift(b: Bigint, p2: nat) returns (rv: nat)
    requires b.Valid() && b.Trimmed() && b.V() > 0
    ensures rv < 32
    ensures forall r: seq<Word> {:trigger Scaled(r)} ::
              (|r| > 1 ==> r[|r| - 1] != 0) && Val(r) == b.V() * Pow2(p2 + rv) ==> Scaled(r)
  {
    hide Val, P, Pow2, Scaled;
    NotEmpty(b.Words());
    ZeroTest(b.Words());
    assert b.x[b.wds - 1] == b.Words()[b.wds - 1];
    var h := Hi0Bits(b.x[b.wds - 1]);
    rv := (h - 4 - p2) % 32;
    forall r: seq<Word> {:trigger Scaled(r)} | (|r| > 1 ==> r[|r| - 1] != 0) && Val(r) == b.V() * Pow2(p2 + rv)
      ensures Scaled(r)
    {
      ShiftScales(b.Words(), h, p2 + rv, r);
    }
  }

  // ----- the fixed-length conversion -----

  /** A shift that is left out when it is by nothing. */
  method ShiftBy(b: Bigint, k: nat) returns (r: Bigint)
    requires b.Valid() && b.Trimmed() && b.V() > 0
    ensures r.Valid() && r.Trimmed() && r.wds > 0 && r.V() == b.V() * Pow2(k)
    ensures r == b || (fresh(r) && fresh(r.x))
  {
    NotEmpty(b.Words());
    r := b;
    if k > 0 {
      r := LShift(b, k);
    } else {
      PowOne();
    }
  }

  /** What is returned for a / c, at least 1 and below 10, with `ilim` digits asked for. */
  ghost predicate Converted(s: seq<nat>, k1: int, a: nat, c: nat, k: int, ilim: int, ndigits: int)
    requires c > 0
  {
    if ilim > 0 then
      Rounded(s, k, k1, a, c, ilim)
    else if ilim < 0 || HalfEven(a, 10 * c) == 0 then
      s == [] && k1 == -1 - ndigits
    else
      HalfEven(a, 10 * c) == 1 && s == [1] && k1 == k + 1
  }

  /** With no digit to write, the half is compared instead. */
  lemma NoDigits(a: nat, c: nat)
    requires a < 10 * c
    ensures HalfEven(a, 10 * c) == if a > 5 * c then 1 else 0
  {
    HalfEvenIs(a, 10 * c, 0, a);
  }

  lemma ScaledConversion(s: seq<nat>, k1: int, a: nat, c: nat, t: nat, k: int, ilim: int, ndigits: int)
    requires c > 0 && t > 0 && c * t > 0 && Converted(s, k1, a * t, c * t, k, ilim, ndigits)
    ensures Converted(s, k1, a, c, k, ilim, ndigits)
  {
    hide HalfEven, Pow10, DigVal;
    if ilim > 0 {
      var p := Pow10(ilim - 1);
      HalfEvenScaled(a * p, c, t);
      assert a * t * p == a * p * t by { Assoc(a, t, p); Assoc(a, p, t); assert t * p == p * t; }
    } else {
      HalfEvenScaled(a, 10 * c, t);
      Assoc(10, c, t);
    }
  }

  /** After scaling: the choice between digits, a lone one and nothing. */
  method WriteDigits(b: Bigint, S: Bigint, k: int, ilim: int, ndigits: int) returns (s: seq<nat>, k1: int)
    requires b.Valid() && S.Valid() && b != S && b.x != S.x && b.Trimmed() && b.wds > 0
    requires Scaled(S.Words()) && S.V() <= b.V() < 10 * S.V()
    modifies b, b.x, S, S.x
    ensures old(S.V()) > 0
    ensures Converted(s, k1, old(b.V()), old(S.V()), k, ilim, ndigits)
  {
    hide Val, P, Pow10, DigVal, HalfEven, Scaled;
    ScaledTrim(S);
    if ilim <= 0 {
      ghost var a, c := b.V(), S.V();
      NoDigits(a, c);
      if ilim < 0 {
        return [], -1 - ndigits;
      }
      var five := MultAdd(S, 5, 0);
      var j := Cmp(b, five);
      if j <= 0 {
        return [], -1 - ndigits;
      }
      return [1], k + 1;
    }
    s, k1 := RoundedDigits(b, S, ilim, k);
  }

  lemma ScaledRange(a: nat, c: nat, t: nat)
    requires t > 0 && c > 0
    ensures c * t > 0 && (a * t < c * t <==> a < c) && (a * t < 10 * (c * t) <==> a < 10 * c)
    ensures (10 * a) * t == (a * t) * 10 && (c * t <= 10 * (a * t) <==> c <= 10 * a)
  {
    MulMono(1, c, t);
    CompareScaled(a, c, t);
    CompareScaled(a, 10 * c, t);
    CompareScaled(10 * a, c, t);
    Assoc(10, a, t);
    Assoc(10, c, t);
  }

  /** `dtoa` from the scales on, for a given number of digits: `kCheck` says that k may be one too
      large, and then `ilim1` is the number of digits for the smaller one. */
  method FixedDigits(b0: Bigint, S0: Bigint, b2: nat, s2: nat, k0: int, kCheck: bool, ilim0: int, ilim1: int,
                     ndigits: int) returns (s: seq<nat>, k1: int)
    requires b0.Valid() && S0.Valid() && b0 != S0 && b0.x != S0.x
    requires b0.Trimmed() && S0.Trimmed() && b0.V() > 0 && S0.V() > 0
    requires var a, c := b0.V() * Pow2(b2), S0.V() * Pow2(s2); (if kCheck then c <= 10 * a else c <= a) && a < 10 * c
    modifies b0, b0.x, S0, S0.x
    ensures old(S0.V()) * Pow2(s2) > 0
    ensures var a, c := old(b0.V()) * Pow2(b2), old(S0.V()) * Pow2(s2);
            if kCheck && a < c then Converted(s, k1, 10 * a, c, k0 - 1, ilim1, ndigits)
            else Converted(s, k1, a, c, k0, ilim0, ndigits)
  {
    hide Val, P, Pow2, Pow10, DigVal, HalfEven, Converted;
    ghost var a, c := b0.V() * Pow2(b2), S0.V() * Pow2(s2);
    MulMono(1, S0.V(), Pow2(s2));
    var i := DShift(S0, s2);
    var b := ShiftBy(b0, b2 + i);
    var S := ShiftBy(S0, s2 + i);
    ghost var t := Pow2(i);
    Further(b0.V(), b2, i);
    Further(S0.V(), s2, i);
    assert Scaled(S.Words());
    ScaledRange(a, c, t);
    if kCheck {
      var j := Cmp(b, S);
      if j < 0 {
        b := MultAdd(b, 10, 0);
        s, k1 := WriteDigits(b, S, k0 - 1, ilim1, ndigits);
        ScaledConversion(s, k1, 10 * a, c, t, k0 - 1, ilim1, ndigits);
        return;
      }
    }
    s, k1 := WriteDigits(b, S, k0, ilim0, ndigits);
    ScaledConversion(s, k1, a, c, t, k0, ilim0, ndigits);
  }
}
