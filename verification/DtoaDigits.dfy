/** The digits of dtoa.c: the quotient of two big integers that is one digit, the loop that writes
    digits, and the rounding of the last one. */
module DtoaDigits {

  import opened BigInt
  import opened BigIntDivide

  // ----- one digit -----

  /** The top word of a divisor has four leading zero bits. */
  ghost predicate Scaled(s: seq<Word>)
  {
    s != [] && 0x800_0000 <= s[|s| - 1] < 0x1000_0000
  }

  /** The words of a number against its top word. */
  lemma TopBounds(s: seq<Word>)
    requires s != []
    ensures s[|s| - 1] * P(|s| - 1) <= Val(s) < (s[|s| - 1] + 1) * P(|s| - 1)
  {
    hide Val, P;
    var n := |s| - 1;
    assert s[..n + 1] == s;
    ValStep(s, n);
    ValBound(s[..n]);
    Distribute(s[n], 1, P(n));
  }

  /** The estimate from the top words is the quotient or one less. */
  lemma Estimate(b: seq<Word>, s: seq<Word>, q: nat)
    requires |b| == |s| && Scaled(s) && Val(b) < 16 * Val(s)
    requires (s[|s| - 1] + 1) * q <= b[|s| - 1] < (s[|s| - 1] + 1) * (q + 1)
    ensures Val(s) * q <= Val(b) < Val(s) * (q + 2)
    ensures q < 16
  {
    hide Val, P;
    var n := |s| - 1;
    var p, st, bt := P(n), s[n], b[n];
    TopBounds(b);
    TopBounds(s);
    EstimateBounds(Val(b), Val(s), bt, st, q, p);
  }

  lemma EstimateBounds(v: nat, s: nat, bt: nat, st: nat, q: nat, p: nat)
    requires p > 0 && 0x800_0000 <= st && v < 16 * s
    requires bt * p <= v < (bt + 1) * p && st * p <= s < (st + 1) * p
    requires (st + 1) * q <= bt < (st + 1) * (q + 1)
    ensures s * q <= v < s * (q + 2) && q < 16
  {
    // q * s <= q * (st + 1) * p <= bt * p <= v
    MulMono(s, (st + 1) * p, q);
    assert (st + 1) * p * q == (st + 1) * q * p by { Assoc(st + 1, p, q); Assoc(st + 1, q, p); assert p * q == q * p; }
    MulMono((st + 1) * q, bt, p);
    assert s * q <= v;
    assert q * s == s * q;
    if q >= 16 { MulMono(16, q, s); }
    // v < (q + 1) * (st + 1) * p <= (q + 2) * st * p <= (q + 2) * s
    assert (st + 1) * (q + 1) <= st * (q + 2);
    MulMono(bt + 1, st * (q + 2), p);
    MulMono(st * p, s, q + 2);
    assert st * p * (q + 2) == st * (q + 2) * p by {
      Assoc(st, p, q + 2);
      Assoc(st, q + 2, p);
      assert p * (q + 2) == (q + 2) * p;
    }
  }

  /** The quotient of the top words, the divisor's made one larger. */
  method TopQuotient(bt: Word, st: Word) returns (q: Word)
    ensures (st + 1) * q <= bt < (st + 1) * (q + 1)
  {
    DivMod(bt, st + 1);
    assert (st + 1) * (bt / (st + 1) + 1) == (st + 1) * (bt / (st + 1)) + (st + 1);
    Grows(bt / (st + 1), st + 1);
    q := bt / (st + 1);
  }

  lemma Quotient(b: nat, s: nat, q: nat, r: nat)
    requires b == s * q + r && r < s
    ensures q == b / s && r == b % s
  {
    DivMod(b, s);
    var q1, r1 := b / s, b % s;
    assert s * (q - q1) == r1 - r;
    assert (q - q1) * s == s * (q - q1) && (q1 - q) * s == s * (q1 - q) == r - r1;
    if q > q1 { MulMono(1, q - q1, s); }
    if q < q1 { MulMono(1, q1 - q, s); }
  }

  /** After a subtraction that cleared the top word: `wds` becomes 0 only for zero. */
  method StripTop(b: Bigint)
    requires b.Valid() && b.wds > 0
    modifies b`wds
    ensures b.Valid() && b.Trimmed() && b.wds <= old(b.wds) && b.V() == old(b.V())
    ensures b.V() == 0 <==> b.x[0] == 0 && b.wds <= 1
  {
    hide Val, P;
    ghost var s := b.Words();
    var n := b.wds - 1;
    if b.x[n] == 0 {
      var bxe := n - 1;
      assert s[n] == 0;
      while bxe > 0 && b.x[bxe] == 0
        invariant bxe == n - 1 && n < b.wds && b.wds == |s| && -1 <= bxe
        invariant forall l | n <= l < |s| :: s[l] == 0
      {
        assert s[bxe] == 0;
        n := n - 1;
        bxe := bxe - 1;
      }
      b.wds := n;
      ValTrim(s, n);
      assert s[..n] == b.Words();
      assert n == 0 ==> b.x[0] == s[0] == 0;
    }
    ZeroTest(b.Words());
  }

  lemma ZeroTest(s: seq<Word>)
    requires |s| > 1 ==> s[|s| - 1] != 0
    ensures Val(s) == 0 <==> s == [] || (|s| == 1 && s[0] == 0)
  {
    hide P;
    if |s| > 1 {
      TopWord(s);
    } else if |s| == 1 {
      assert s[1..] == [];
    }
  }

  /** q times S off b, with the top words that became zero dropped. */
  method TakeAway(b: Bigint, S: Bigint, q: Word)
    requires b.Valid() && S.Valid() && b != S && b.x != S.x && b.wds == S.wds > 0
    requires S.V() * q <= b.V()
    modifies b`wds, b.x
    ensures b.Valid() && b.Trimmed() && b.x == old(b.x) && b.wds <= old(b.wds)
    ensures b.V() == old(b.V()) - S.V() * q
    ensures b.V() == 0 <==> b.x[0] == 0 && b.wds <= 1
  {
    hide Val, P;
    SubtractRow(S.x, S.wds, q, b.x);
    StripTop(b);
  }

  /** The first quotient of `quorem`, never too large and at most one too small. */
  method FirstQuotient(b: Bigint, S: Bigint) returns (q: Word)
    requires b.Valid() && S.Valid() && b.wds == S.wds && Scaled(S.Words()) && b.V() < 16 * S.V()
    ensures S.V() * q <= b.V() && b.V() - S.V() * q < 2 * S.V()
  {
    hide Val, P;
    ghost var v, s := b.Words(), S.Words();
    var n := S.wds;
    assert b.x[n - 1] == v[n - 1] && S.x[n - 1] == s[n - 1];
    q := TopQuotient(b.x[n - 1], S.x[n - 1]);
    Estimate(v, s, q);
    Twice(Val(v), Val(s), q);
  }

  /** `quorem`: the quotient, leaving the remainder in `b`. */
  method Quorem(b: Bigint, S: Bigint) returns (q: nat)
    requires b.Valid() && S.Valid() && b != S && b.x != S.x && b.Trimmed() && b.wds > 0
    requires Scaled(S.Words()) && b.V() < 16 * S.V()
    modifies b`wds, b.x
    ensures b.Valid() && b.Trimmed() && b.x == old(b.x)
    ensures old(b.V()) == S.V() * q + b.V() && b.V() < S.V()
    ensures b.V() == 0 <==> b.x[0] == 0 && b.wds <= 1
  {
    hide Val, P;
    assert S.Trimmed() by { assert S.x[S.wds - 1] == S.Words()[S.wds - 1]; }
    NotLonger(b.Words(), S.Words());
    ZeroTest(b.Words());
    if b.wds < S.wds {
      LongerIsMore(S.Words(), b.Words());
      return 0;
    }
    q := FirstQuotient(b, S);
    if q > 0 {
      TakeAway(b, S, q);
    }
    var more := CorrectOnce(b, S);
    if more {
      q := q + 1;
    }
  }

  /** The correction of `quorem`. */
  method CorrectOnce(b: Bigint, S: Bigint) returns (more: bool)
    requires b.Valid() && S.Valid() && b != S && b.x != S.x && b.Trimmed()
    requires S.Trimmed() && b.wds <= S.wds && 0 < S.V() && b.V() < 2 * S.V()
    modifies b`wds, b.x
    ensures b.Valid() && b.Trimmed() && b.x == old(b.x)
    ensures b.V() == old(b.V()) - (if more then S.V() else 0) && b.V() < S.V()
    ensures old(b.V() == 0 <==> b.x[0] == 0 && b.wds <= 1) ==> (b.V() == 0 <==> b.x[0] == 0 && b.wds <= 1)
  {
    hide Val, P;
    NotEmpty(S.Words());
    var j := Cmp(b, S);
    more := j >= 0;
    if more {
      SameLength(b.Words(), S.Words());
      TakeAway(b, S, 1);
    }
  }

  lemma Twice(v: int, s: int, q: int)
    requires v < s * (q + 2)
    ensures v - s * q < 2 * s && s * (q + 1) == s * q + s * 1
  {
  }

  lemma SameLength(b: seq<Word>, s: seq<Word>)
    requires Val(b) >= Val(s) > 0 && |b| <= |s| && (|s| > 1 ==> s[|s| - 1] != 0)
    ensures |b| == |s|
  {
    if |b| < |s| { LongerIsMore(s, b); }
  }

  lemma NotLonger(b: seq<Word>, s: seq<Word>)
    requires Scaled(s) && Val(b) < 16 * Val(s) && (|b| > 1 ==> b[|b| - 1] != 0)
    ensures |b| <= |s| && Val(s) > 0
  {
    var n := |s| - 1;
    TopBounds(s);
    assert P(n + 1) == B * P(n);
    hide Val, P;
    MulMono(s[n] + 1, 0x1000_0000, P(n));
    MulMono(1, s[n], P(n));
    if |b| > |s| { LongBound(b, |s|); }
  }

  /** A number of more than n words needs them. */
  lemma LongBound(b: seq<Word>, n: nat)
    requires |b| > n > 0 && b[|b| - 1] != 0
    ensures Val(b) >= P(n)
  {
    hide Val, P;
    TopWord(b);
    PGrows(n, |b| - 1);
  }
}
