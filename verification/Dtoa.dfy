/** The exact decimal conversion of dtoa.c on its big integers: powers of five, scaling, one-digit
    quotients, the digit loop and its rounding. */
module Dtoa {

  import opened BigInt
  import opened BigIntDivide

  // ----- powers of five -----

  function Pow5(k: nat): (p: nat)
    ensures p > 0
  {
    if k == 0 then 1 else 5 * Pow5(k - 1)
  }

  lemma {:induction false} Pow5Sum(i: nat, j: nat)
    ensures Pow5(i + j) == Pow5(i) * Pow5(j)
    decreases i
  {
    if i > 0 {
      Pow5Sum(i - 1, j);
      Assoc(5, Pow5(i - 1), Pow5(j));
    }
  }

  /** The list `p5s`: node i holds 5^(4 * 2^i) and is made from node i - 1 when first needed. */
  class Pow5Cache {
    var p5s: seq<Bigint>

    ghost predicate Valid()
      reads this, p5s, set b | b in p5s :: b.x
    {
      forall i | 0 <= i < |p5s| :: Holds(p5s[i], i)
    }

    static ghost predicate Holds(b: Bigint, i: nat)
      reads b, b.x
    {
      b.Valid() && b.V() == Pow5(4 * Pow2(i)) && b.wds > 0
    }

    ghost predicate Apart(b: Bigint)
      reads this, p5s, b
    {
      forall i | 0 <= i < |p5s| :: p5s[i] != b && p5s[i].x != b.x
    }

    constructor ()
      ensures Valid() && p5s == []
    {
      p5s := [];
    }

    /** The next node of the list, made if it is not there. */
    method Next(j: nat)
      requires Valid() && j < |p5s|
      modifies this
      ensures Valid() && j + 1 < |p5s| && old(p5s) <= p5s
      ensures forall i | |old(p5s)| <= i < |p5s| :: fresh(p5s[i]) && fresh(p5s[i].x)
    {
      hide Val, P;
      if j + 1 == |p5s| {
        var p51 := Mult(p5s[j], p5s[j]);
        Pow5Sum(4 * Pow2(j), 4 * Pow2(j));
        assert Pow2(j + 1) == 2 * Pow2(j);
        NotEmpty(p51.Words());
        p5s := p5s + [p51];
      }
    }

    /** A product with a node of the cache. */
    method MultNode(b: Bigint, j: nat) returns (r: Bigint)
      requires Valid() && j < |p5s| && b.Valid() && Apart(b)
      ensures Valid() && r.Valid() && Apart(r) && fresh(r) && fresh(r.x)
      ensures r.V() == b.V() * Pow5(4 * Pow2(j)) && (b.Trimmed() ==> r.Trimmed())
    {
      hide Val, P, Pow2, Pow5;
      assert Holds(p5s[j], j);
      r := Mult(b, p5s[j]);
    }

    /** The loop of `pow5mult`: b * 5^(4 * rest). */
    method Pow625Mult(b: Bigint, rest0: nat) returns (r: Bigint)
      requires Valid() && b.Valid() && Apart(b) && rest0 > 0
      modifies this
      ensures Valid() && r.Valid() && Apart(r)
      ensures r.V() == b.V() * Pow5(4 * rest0)
      ensures b.Trimmed() ==> r.Trimmed()
      ensures r == b || (fresh(r) && fresh(r.x))
    {
      hide Val, P, Pow2, Pow5;
      ghost var v := b.V() * Pow5(4 * rest0);
      FirstNode();
      if p5s == [] {
        var first := FromWord(625);
        p5s := [first];
      }
      r := b;
      var j, rest := 0, rest0;
      while true
        invariant Valid() && j < |p5s| && 0 < rest
        invariant b.Valid() && b.V() == old(b.V()) && b.Trimmed() == old(b.Trimmed())
        invariant r.Valid() && Apart(r) && (b.Trimmed() ==> r.Trimmed())
        invariant r.V() * Pow5(4 * (rest * Pow2(j))) == v
        invariant r == b || (fresh(r) && fresh(r.x))
        decreases rest
      {
        ghost var w := r.V();
        if rest % 2 == 1 {
          r := MultNode(r, j);
        }
        UseNode(w, rest, j);
        rest := rest / 2;
        if rest == 0 {
          break;
        }
        Next(j);
        j := j + 1;
      }
    }

    /** `pow5mult`: b * 5^k. */
    method Pow5Mult(b: Bigint, k: nat) returns (r: Bigint)
      requires Valid() && b.Valid() && b.wds > 0 && Apart(b)
      modifies this, b, b.x
      ensures Valid() && r.Valid() && Apart(r)
      ensures r.V() == old(b.V()) * Pow5(k)
      ensures old(b.Trimmed()) ==> r.Trimmed()
      ensures (r == b && r.x == old(b.x)) || (fresh(r) && fresh(r.x))
    {
      hide Val, P;
      ghost var v := b.V();
      var i := k % 4;
      r := b;
      SmallPowers();
      if i > 0 {
        r := MultAdd(b, if i == 1 then 5 else if i == 2 then 25 else 125, 0);
        assert forall l | 0 <= l < |p5s| :: Holds(p5s[l], l);
      }
      assert r.V() == v * Pow5(i);
      if k / 4 == 0 {
        return;
      }
      r := Pow625Mult(r, k / 4);
      Pow5Sum(i, 4 * (k / 4));
      Assoc(v, Pow5(i), Pow5(4 * (k / 4)));
    }
  }

  lemma SmallPowers()
    ensures Pow5(0) == 1 && Pow5(1) == 5 && Pow5(2) == 25 && Pow5(3) == 125
  {
  }

  /** What the loop has left to multiply after node j, taken when the exponent is odd. */
  lemma UseNode(w: nat, rest: nat, j: nat)
    ensures var e := 4 * (rest / 2 * Pow2(j + 1));
            w * Pow5(4 * (rest * Pow2(j))) == (if rest % 2 == 1 then w * Pow5(4 * Pow2(j)) else w) * Pow5(e)
  {
    var p, h := Pow2(j), rest / 2;
    Assoc(h, 2, p);
    Distribute(2 * h, 1, p);
    if rest % 2 == 1 {
      assert 4 * (rest * p) == 4 * p + 4 * (h * (2 * p));
      Pow5Sum(4 * p, 4 * (h * (2 * p)));
      Assoc(w, Pow5(4 * p), Pow5(4 * (h * (2 * p))));
    }
  }

  lemma FirstNode()
    ensures Pow2(0) == 1 && Pow5(0) == 1 && Pow5(4 * Pow2(0)) == 625
  {
    SmallPowers();
  }
}
