/** The bytes of the format of lua-seri.c, written out, and how deep tables can be nested. */
module SeriFormat {

  import opened Basics
  import opened Seri
  import opened SeriBlocks

  function Two(n: nat): seq<Byte>
  {
    [n % 256, n / 256 % 256]
  }

  function Four(n: nat): seq<Byte>
  {
    Two(n) + Two(n / 0x1_0000)
  }

  function Eight(n: nat): seq<Byte>
  {
    Four(n) + Four(n / 0x1_0000_0000)
  }

  lemma {:induction false} NoBytes(n: nat)
    ensures Le(n, 0) == []
  {
  }

  lemma {:induction false} TwoMore(n: nat, w: nat)
    ensures Le(n, 1) == [n % 256] && Le(n, w + 2) == Two(n) + Le(n / 0x1_0000, w)
  {
    assert Le(n / 256, 0) == [] && Le(n / 256, w + 1) == [n / 256 % 256] + Le(n / 256 / 256, w);
  }

  lemma {:induction false} LowestFirst(n: nat)
    ensures Le(n, 1) == [n % 256] && Le(n, 2) == Two(n) && Le(n, 4) == Four(n) && Le(n, 8) == Eight(n)
  {
    hide Two, Le;
    NoBytes(n / 0x1_0000);
    NoBytes(n / 0x1_0000_0000);
    NoBytes(n / 0x1_0000_0000_0000_0000);
    TwoMore(n, 0);
    TwoMore(n, 2);
    TwoMore(n / 0x1_0000, 0);
    TwoMore(n, 6);
    TwoMore(n / 0x1_0000, 4);
    TwoMore(n / 0x1_0000_0000, 2);
    TwoMore(n / 0x1_0000_0000_0000, 0);
  }

  /** Values without contents. */
  lemma {:induction false} SmallBytes(bits: Bits)
    ensures Enc(Nil) == [0] && Enc(Boolean(false)) == [1] && Enc(Boolean(true)) == [9]
    ensures Enc(Real(bits)) == [0x42] + bits && Enc(Pointer(bits)) == [3] + bits
  {
  }

  /** Integers: no byte, one, two, four or eight bytes, the lowest first and negative ones in two's
      complement. */
  lemma {:induction false} IntBytes(v: Int64)
    ensures v == 0 ==> Enc(Integer(v)) == [2]
    ensures 0 < v < 0x100 ==> Enc(Integer(v)) == [0x0A, v]
    ensures 0x100 <= v < 0x1_0000 ==> Enc(Integer(v)) == [0x12] + Two(v)
    ensures 0x1_0000 <= v < 0x8000_0000 ==> Enc(Integer(v)) == [0x22] + Four(v)
    ensures -0x8000_0000 <= v < 0 ==> Enc(Integer(v)) == [0x22] + Four(0x1_0000_0000 + v)
    ensures 0x8000_0000 <= v ==> Enc(Integer(v)) == [0x32] + Eight(v)
    ensures v < -0x8000_0000 ==> Enc(Integer(v)) == [0x32] + Eight(0x1_0000_0000_0000_0000 + v)
  {
    hide Le, Two, Four, Eight;
    LowestFirst(Unsigned(v, Width(IntCookie(v))));
    NoBytes(Unsigned(v, 0));
  }

  /** Strings: the length in the first byte, or in two or four bytes behind it. */
  lemma {:induction false} StringBytes(s: seq<Byte>)
    requires Plain(Str(s))
    ensures |s| < 32 ==> Enc(Str(s)) == [4 + 8 * |s|] + s
    ensures 32 <= |s| < 0x1_0000 ==> Enc(Str(s)) == [0x15] + Two(|s|) + s
    ensures 0x1_0000 <= |s| ==> Enc(Str(s)) == [0x25] + Four(|s|) + s
  {
    LowestFirst(|s|);
    hide Le;
  }

  /** Tables: the length of the array part in the first byte, or as an integer behind it, then the array
      part, the pairs and a nil. */
  lemma {:induction false} TableBytes(items: seq<Value>, hash: seq<Pair>)
    requires Plain(Table(items, hash))
    ensures |items| < 31 ==>
      Enc(Table(items, hash)) == [6 + 8 * |items|] + EncAll(items) + EncPairs(hash) + [0]
    ensures |items| >= 31 ==>
      Enc(Table(items, hash)) == [0xFE] + Enc(Integer(|items|)) + EncAll(items) + EncPairs(hash) + [0]
  {
    hide EncAll, EncPairs, EncInt, Plain;
  }

  // ----- depth -----

  function Max(a: nat, b: nat): nat
  {
    if a < b then b else a
  }

  /** How many tables are around the innermost part of a value. */
  function Height(v: Value): nat
  {
    match v
    case Table(items, hash) => Max(HeightAll(items), HeightPairs(hash))
    case _ => 0
  }

  function HeightAll(vs: seq<Value>): nat
  {
    if vs == [] then 0 else Max(1 + Height(vs[0]), HeightAll(vs[1..]))
  }

  function HeightPairs(ps: seq<Pair>): nat
  {
    if ps == [] then 0 else Max(HeightPair(ps[0]), HeightPairs(ps[1..]))
  }

  function HeightPair(p: Pair): nat
  {
    1 + Max(Height(p.key), Height(p.value))
  }

  /** Nothing in it is of an unsupported type. */
  predicate Supported(v: Value)
  {
    match v
    case Other => false
    case Table(items, hash) =>
      && (forall i | 0 <= i < |items| :: Supported(items[i]))
      && (forall i | 0 <= i < |hash| :: SupportedPair(hash[i]))
    case _ => true
  }

  predicate SupportedPair(p: Pair)
  {
    Supported(p.key) && Supported(p.value)
  }

  lemma {:induction false} HeightOfAll(vs: seq<Value>, h: nat)
    ensures HeightAll(vs) <= h <==> forall i | 0 <= i < |vs| :: 1 + Height(vs[i]) <= h
    decreases |vs|
  {
    if vs != [] {
      HeightOfAll(vs[1..], h);
      assert forall i | 1 <= i < |vs| :: vs[i] == vs[1..][i - 1];
    }
  }

  lemma {:induction false} HeightOfPairs(ps: seq<Pair>, h: nat)
    ensures HeightPairs(ps) <= h <==> forall i | 0 <= i < |ps| :: HeightPair(ps[i]) <= h
    decreases |ps|
  {
    if ps != [] {
      HeightOfPairs(ps[1..], h);
      assert forall i | 1 <= i < |ps| :: ps[i] == ps[1..][i - 1];
    }
  }

  /** A value can be packed exactly if all of it is supported and none of it is inside more than 32
      tables. */
  lemma {:induction false} FitsExact(v: Value, depth: nat)
    ensures Fits(v, depth) <==> Supported(v) && depth + Height(v) <= 32
    decreases v
  {
    if v.Table? && depth <= 32 {
      forall i | 0 <= i < |v.items|
        ensures Fits(v.items[i], depth + 1) <==> Supported(v.items[i]) && 1 + Height(v.items[i]) <= 32 - depth
      {
        FitsExact(v.items[i], depth + 1);
      }
      forall i | 0 <= i < |v.hash|
        ensures FitsPair(v.hash[i], depth + 1) <==> SupportedPair(v.hash[i]) && HeightPair(v.hash[i]) <= 32 - depth
      {
        FitsExact(v.hash[i].key, depth + 1);
        FitsExact(v.hash[i].value, depth + 1);
      }
      HeightOfAll(v.items, 32 - depth);
      HeightOfPairs(v.hash, 32 - depth);
    }
  }
}
