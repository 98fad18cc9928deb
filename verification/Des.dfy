/** The key schedule and the DES block and string ciphers of lua-crypt.c. That deciphering undoes
    enciphering holds for any S-boxes and any subkeys, and is proved so. */
module Des {
  import opened DesTables

  type Block = b: seq<bv8> | |b| == 8 witness [0, 0, 0, 0, 0, 0, 0, 0]

  /** The subkeys of a key. */
  type Schedule = s: seq<bv32> | |s| == 32 witness seq(32, _ => 0)

  datatype Pair = Pair(x: bv32, y: bv32)

  // ----- bytes and words -----

  function Join(a: bv8, b: bv8, c: bv8, d: bv8): bv32
  {
    ((a as bv32) << 24) | ((b as bv32) << 16) | ((c as bv32) << 8) | (d as bv32)
  }

  function GetWord(b: Block, i: nat): bv32
    requires i == 0 || i == 4
  {
    Join(b[i], b[i + 1], b[i + 2], b[i + 3])
  }

  function PutWord(n: bv32): (b: seq<bv8>)
    ensures |b| == 4
  {
    [((n >> 24) & 0xFF) as bv8, ((n >> 16) & 0xFF) as bv8, ((n >> 8) & 0xFF) as bv8, (n & 0xFF) as bv8]
  }

  lemma {:induction false} BytesOfWord(a: bv8, b: bv8, c: bv8, d: bv8)
    ensures PutWord(Join(a, b, c, d)) == [a, b, c, d]
  {
  }

  lemma {:induction false} WordOfBytes(n: bv32)
    ensures var b := PutWord(n); Join(b[0], b[1], b[2], b[3]) == n
  {
  }

  // ----- the key schedule -----

  /** Permuted choice 1: two halves of 28 bits. */
  function Choice1(p: Pair): Pair
  {
    var q := KeyExchange(p);
    Pair(Low28(LeftHalf(q.x)), Low28(RightHalf(q.y)))
  }

  function KeyExchange(p: Pair): Pair
  {
    var t := ((p.y >> 4) ^ p.x) & 0x0F0F0F0F;
    var x, y := p.x ^ t, p.y ^ (t << 4);
    var u := (y ^ x) & 0x10101010;
    Pair(x ^ u, y ^ u)
  }

  function Low28(x: bv32): bv32
  {
    x & 0x0FFFFFFF
  }

  function Nibble(n: bv32): (i: nat)
    ensures i < 16
  {
    (n & 0xF) as bv4 as nat
  }

  function LeftHalf(x: bv32): bv32
  {
    (LHs(Nibble(x)) << 3) | (LHs(Nibble(x >> 8)) << 2) | (LHs(Nibble(x >> 16)) << 1) | LHs(Nibble(x >> 24))
    | (LHs(Nibble(x >> 5)) << 7) | (LHs(Nibble(x >> 13)) << 6)
    | (LHs(Nibble(x >> 21)) << 5) | (LHs(Nibble(x >> 29)) << 4)
  }

  function RightHalf(y: bv32): bv32
  {
    (RHs(Nibble(y >> 1)) << 3) | (RHs(Nibble(y >> 9)) << 2)
    | (RHs(Nibble(y >> 17)) << 1) | RHs(Nibble(y >> 25))
    | (RHs(Nibble(y >> 4)) << 7) | (RHs(Nibble(y >> 12)) << 6)
    | (RHs(Nibble(y >> 20)) << 5) | (RHs(Nibble(y >> 28)) << 4)
  }

  /** A half of 28 bits, rotated by one. */
  function LeftOne(x: bv32): bv32
  {
    Low28((x << 1) | (x >> 27))
  }

  function LeftTwo(x: bv32): bv32
  {
    Low28((x << 2) | (x >> 26))
  }

  function Shifted(i: nat, x: bv32): bv32
  {
    if i < 2 || i == 8 || i == 15 then LeftOne(x) else LeftTwo(x)
  }

  /** The halves of the key after n iterations. */
  function KeyHalves(key: Block, n: nat): Pair
  {
    if n == 0 then Choice1(Pair(GetWord(key, 0), GetWord(key, 4)))
    else
      var p := KeyHalves(key, n - 1);
      Pair(Shifted(n - 1, p.x), Shifted(n - 1, p.y))
  }

  function Even(x: bv32, y: bv32): bv32
  {
    ((x << 4) & 0x24000000) | ((x << 28) & 0x10000000) | ((x << 14) & 0x08000000) | ((x << 18) & 0x02080000)
    | ((x << 6) & 0x01000000) | ((x << 9) & 0x00200000) | ((x >> 1) & 0x00100000) | ((x << 10) & 0x00040000)
    | ((x << 2) & 0x00020000) | ((x >> 10) & 0x00010000) | ((y >> 13) & 0x00002000) | ((y >> 4) & 0x00001000)
    | ((y << 6) & 0x00000800) | ((y >> 1) & 0x00000400) | ((y >> 14) & 0x00000200) | (y & 0x00000100)
    | ((y >> 5) & 0x00000020) | ((y >> 10) & 0x00000010) | ((y >> 3) & 0x00000008) | ((y >> 18) & 0x00000004)
    | ((y >> 26) & 0x00000002) | ((y >> 24) & 0x00000001)
  }

  function Odd(x: bv32, y: bv32): bv32
  {
    ((x << 15) & 0x20000000) | ((x << 17) & 0x10000000) | ((x << 10) & 0x08000000) | ((x << 22) & 0x04000000)
    | ((x >> 2) & 0x02000000) | ((x << 1) & 0x01000000) | ((x << 16) & 0x00200000) | ((x << 11) & 0x00100000)
    | ((x << 3) & 0x00080000) | ((x >> 6) & 0x00040000) | ((x << 15) & 0x00020000) | ((x >> 4) & 0x00010000)
    | ((y >> 2) & 0x00002000) | ((y << 8) & 0x00001000) | ((y >> 14) & 0x00000808) | ((y >> 9) & 0x00000400)
    | (y & 0x00000200) | ((y << 7) & 0x00000100) | ((y >> 7) & 0x00000020) | ((y >> 3) & 0x00000011)
    | ((y << 2) & 0x00000004) | ((y >> 21) & 0x00000002)
  }

  /** Two subkeys for each iteration. */
  function KeySchedule(key: Block): Schedule
  {
    seq(32, i requires 0 <= i < 32 =>
      var p := KeyHalves(key, i / 2 + 1); if i % 2 == 0 then Even(p.x, p.y) else Odd(p.x, p.y))
  }

  /** `des_main_ks` */
  method MainKs(key: Block) returns (sk: Schedule)
    ensures sk == KeySchedule(key)
  {
    hide Choice1, Shifted, Even, Odd, GetWord;
    var p := Choice1(Pair(GetWord(key, 0), GetWord(key, 4)));
    var x, y := p.x, p.y;
    var a := new bv32[32];
    var i := 0;
    while i < 16
      invariant 0 <= i <= 16 && Pair(x, y) == KeyHalves(key, i)
      invariant forall j | 0 <= j < 2 * i :: a[j] == KeySchedule(key)[j]
    {
      x, y := Shifted(i, x), Shifted(i, y);
      a[2 * i] := Even(x, y);
      a[2 * i + 1] := Odd(x, y);
      i := i + 1;
    }
    sk := a[..];
  }

  // ----- the permutations -----

  function Exchange4(p: Pair): Pair
  {
    var t := ((p.x >> 4) ^ p.y) & 0x0F0F0F0F;
    Pair(p.x ^ (t << 4), p.y ^ t)
  }

  function Exchange16(p: Pair): Pair
  {
    var t := ((p.x >> 16) ^ p.y) & 0x0000FFFF;
    Pair(p.x ^ (t << 16), p.y ^ t)
  }

  function Exchange2(p: Pair): Pair
  {
    var t := ((p.y >> 2) ^ p.x) & 0x33333333;
    Pair(p.x ^ t, p.y ^ (t << 2))
  }

  function Exchange8(p: Pair): Pair
  {
    var t := ((p.y >> 8) ^ p.x) & 0x00FF00FF;
    Pair(p.x ^ t, p.y ^ (t << 8))
  }

  function Exchange0(p: Pair): Pair
  {
    var t := (p.x ^ p.y) & 0xAAAAAAAA;
    Pair(p.x ^ t, p.y ^ t)
  }

  function RotL(n: bv32): bv32
  {
    (n << 1) | (n >> 31)
  }

  function RotR(n: bv32): bv32
  {
    (n << 31) | (n >> 1)
  }

  /** `DES_IP` */
  function InitialPermutation(p: Pair): Pair
  {
    var a := Exchange8(Exchange2(Exchange16(Exchange4(p))));
    var b := Exchange0(Pair(a.x, RotL(a.y)));
    Pair(RotL(b.x), b.y)
  }

  /** `DES_FP` */
  function FinalPermutation(p: Pair): Pair
  {
    var a := Exchange0(Pair(RotR(p.x), p.y));
    var b := Pair(a.x, RotR(a.y));
    Exchange4(Exchange16(Exchange2(Exchange8(b))))
  }

  lemma {:induction false} Twice4(p: Pair)
    ensures Exchange4(Exchange4(p)) == p
  {
  }

  lemma {:induction false} Twice16(p: Pair)
    ensures Exchange16(Exchange16(p)) == p
  {
  }

  lemma {:induction false} Twice2(p: Pair)
    ensures Exchange2(Exchange2(p)) == p
  {
  }

  lemma {:induction false} Twice8(p: Pair)
    ensures Exchange8(Exchange8(p)) == p
  {
  }

  lemma {:induction false} Twice0(p: Pair)
    ensures Exchange0(Exchange0(p)) == p
  {
  }

  lemma {:induction false} Rotations(n: bv32)
    ensures RotL(RotR(n)) == n && RotR(RotL(n)) == n
  {
  }

  /** The final permutation undoes the initial one, and the other way round. */
  lemma {:induction false} PermutationsInvert(p: Pair)
    ensures FinalPermutation(InitialPermutation(p)) == p
    ensures InitialPermutation(FinalPermutation(p)) == p
  {
    hide Exchange4, Exchange16, Exchange2, Exchange8, Exchange0, RotL, RotR;
    var c4 := Exchange4(p);
    var c16 := Exchange16(c4);
    var c2 := Exchange2(c16);
    var c8 := Exchange8(c2);
    Twice4(p);
    Twice16(c4);
    Twice2(c16);
    Twice8(c2);
    Rotations(c8.y);
    var d := Exchange0(Pair(c8.x, RotL(c8.y)));
    Twice0(Pair(c8.x, RotL(c8.y)));
    Rotations(d.x);
    var a := Exchange0(Pair(RotR(p.x), p.y));
    Rotations(p.x);
    Twice0(Pair(RotR(p.x), p.y));
    Rotations(a.y);
    var b := Pair(a.x, RotR(a.y));
    var e8 := Exchange8(b);
    var e2 := Exchange2(e8);
    var e16 := Exchange16(e2);
    Twice8(b);
    Twice2(e8);
    Twice16(e2);
    Twice4(e16);
  }

  // ----- rounds -----

  function Xor(a: bv32, b: bv32): bv32
  {
    a ^ b
  }

  /** What `DES_ROUND` mixes into the other half, with its two subkeys. */
  function Mix(sb: Boxes, k0: bv32, k1: bv32, x: bv32): bv32
  {
    Looked(sb, Xor(k0, x), Xor(k1, RotR4(x)))
  }

  function RotR4(n: bv32): bv32
  {
    (n << 28) | (n >> 4)
  }

  function Looked(sb: Boxes, t: bv32, u: bv32): bv32
  {
    XorAll(sb[7][Low(t, 0) as nat], sb[5][Low(t, 8) as nat], sb[3][Low(t, 16) as nat], sb[1][Low(t, 24) as nat],
           sb[6][Low(u, 0) as nat], sb[4][Low(u, 8) as nat], sb[2][Low(u, 16) as nat], sb[0][Low(u, 24) as nat])
  }

  function XorAll(a: bv32, b: bv32, c: bv32, d: bv32, e: bv32, f: bv32, g: bv32, h: bv32): bv32
  {
    a ^ b ^ c ^ d ^ e ^ f ^ g ^ h
  }

  function Low(t: bv32, n: bv32): bv6
    requires n <= 24
  {
    ((t >> n) & 0x3F) as bv6
  }

  /** A round into the first half, or into the second. */
  function Turn(first: bool, sb: Boxes, k0: bv32, k1: bv32, p: Pair): Pair
  {
    if first then Pair(Xor(p.x, Mix(sb, k0, k1, p.y)), p.y) else Pair(p.x, Xor(p.y, Mix(sb, k0, k1, p.x)))
  }

  /** Round i of sixteen; the halves take turns. */
  function Round(sb: Boxes, sk: Schedule, i: nat, p: Pair): Pair
    requires i < 16
  {
    Turn(i % 2 == 0, sb, sk[2 * i], sk[2 * i + 1], p)
  }

  function Rounds(sb: Boxes, sk: Schedule, n: nat, p: Pair): Pair
    requires n <= 16
  {
    if n == 0 then p else Round(sb, sk, n - 1, Rounds(sb, sk, n - 1, p))
  }

  /** The subkeys in the order for deciphering. */
  function Reversed(sk: Schedule): Schedule
  {
    seq(32, i requires 0 <= i < 32 => if i % 2 == 0 then sk[30 - i] else sk[32 - i])
  }

  lemma {:induction false} ReversedTwice(sk: Schedule)
    ensures Reversed(Reversed(sk)) == sk
  {
  }

  function Flip(p: Pair): Pair
  {
    Pair(p.y, p.x)
  }

  lemma {:induction false} XorTwice(a: bv32, b: bv32)
    ensures Xor(Xor(a, b), b) == a
  {
  }

  lemma {:induction false} KeysReversed(sk: Schedule, i: nat)
    requires i < 16
    ensures Reversed(sk)[2 * (15 - i)] == sk[2 * i] && Reversed(sk)[2 * (15 - i) + 1] == sk[2 * i + 1]
  {
  }

  /** With the halves exchanged, a round with the same subkeys undoes a round, whatever `Mix` is. */
  lemma {:induction false} TurnUndo(first: bool, sb: Boxes, k0: bv32, k1: bv32, q: Pair)
    ensures Turn(!first, sb, k0, k1, Flip(Turn(first, sb, k0, k1, q))) == Flip(q)
  {
    hide Mix, Xor;
    XorTwice(q.x, Mix(sb, k0, k1, q.y));
    XorTwice(q.y, Mix(sb, k0, k1, q.x));
  }

  lemma {:induction false} RoundUndo(sb: Boxes, sk: Schedule, i: nat, q: Pair)
    requires i < 16
    ensures Round(sb, Reversed(sk), 15 - i, Flip(Round(sb, sk, i, q))) == Flip(q)
  {
    hide Turn, Reversed;
    KeysReversed(sk, i);
    TurnUndo(i % 2 == 0, sb, sk[2 * i], sk[2 * i + 1], q);
    assert (15 - i) % 2 == 0 <==> i % 2 != 0;
  }

  lemma {:induction false} RoundsUndo(sb: Boxes, sk: Schedule, n: nat, p: Pair)
    requires n <= 16
    ensures Rounds(sb, Reversed(sk), n, Flip(Rounds(sb, sk, 16, p))) == Flip(Rounds(sb, sk, 16 - n, p))
    decreases n
  {
    hide Round, Reversed;
    if n > 0 {
      RoundsUndo(sb, sk, n - 1, p);
      var q := Rounds(sb, sk, 16 - n, p);
      assert Rounds(sb, sk, 17 - n, p) == Round(sb, sk, 16 - n, q);
      RoundUndo(sb, sk, 16 - n, q);
    }
  }

  /** What `des_crypt` makes of a block. */
  function Crypt(sb: Boxes, sk: Schedule, b: Block): (c: Block)
  {
    var p := Rounds(sb, sk, 16, InitialPermutation(Pair(GetWord(b, 0), GetWord(b, 4))));
    var q := FinalPermutation(Flip(p));
    PutWord(q.x) + PutWord(q.y)
  }

  lemma {:induction false} WordsOfBlock(q: Pair)
    ensures var b := PutWord(q.x) + PutWord(q.y); Pair(GetWord(b, 0), GetWord(b, 4)) == q
  {
    WordOfBytes(q.x);
    WordOfBytes(q.y);
    var b := PutWord(q.x) + PutWord(q.y);
    assert b[0] == PutWord(q.x)[0] && b[1] == PutWord(q.x)[1] && b[2] == PutWord(q.x)[2] && b[3] == PutWord(q.x)[3];
    assert b[4] == PutWord(q.y)[0] && b[5] == PutWord(q.y)[1] && b[6] == PutWord(q.y)[2] && b[7] == PutWord(q.y)[3];
    hide PutWord, Join;
  }

  lemma {:induction false} BlockOfWords(b: Block)
    ensures PutWord(GetWord(b, 0)) + PutWord(GetWord(b, 4)) == b
  {
    BytesOfWord(b[0], b[1], b[2], b[3]);
    BytesOfWord(b[4], b[5], b[6], b[7]);
    hide PutWord, Join;
    assert b == [b[0], b[1], b[2], b[3]] + [b[4], b[5], b[6], b[7]];
  }

  /** Deciphering a block gives it back, for every block, key schedule and S-boxes. */
  lemma {:induction false} BlockRoundTrip(sb: Boxes, sk: Schedule, b: Block)
    ensures Crypt(sb, Reversed(sk), Crypt(sb, sk, b)) == b
  {
    hide Rounds, Reversed, InitialPermutation, FinalPermutation, GetWord, PutWord;
    var w := Pair(GetWord(b, 0), GetWord(b, 4));
    var p := InitialPermutation(w);
    var q := FinalPermutation(Flip(Rounds(sb, sk, 16, p)));
    WordsOfBlock(q);
    PermutationsInvert(Flip(Rounds(sb, sk, 16, p)));
    PermutationsInvert(w);
    RoundsUndo(sb, sk, 16, p);
    RoundsNone(sb, sk, p);
    BlockOfWords(b);
  }

  lemma {:induction false} RoundsNone(sb: Boxes, sk: Schedule, p: Pair)
    ensures Rounds(sb, sk, 0, p) == p
  {
  }

  // ----- strings -----

  /** Every block of a text, ciphered. */
  function CryptAll(sb: Boxes, sk: Schedule, s: seq<bv8>): (c: seq<bv8>)
    requires |s| % 8 == 0
    ensures |c| == |s|
  {
    if s == [] then [] else CryptAll(sb, sk, s[..|s| - 8]) + Crypt(sb, sk, s[|s| - 8..])
  }

  function Zeros(n: nat): (z: seq<bv8>)
    ensures |z| == n && forall i | 0 <= i < n :: z[i] == 0
  {
    seq(n, _ => 0)
  }

  /** 0x80 and zeros, up to whole blocks. */
  function Pad(t: seq<bv8>): (p: seq<bv8>)
    ensures |p| == 8 * (|t| / 8 + 1)
  {
    t + [0x80] + Zeros(7 - |t| % 8)
  }

  function Encoded(sb: Boxes, sk: Schedule, t: seq<bv8>): seq<bv8>
  {
    CryptAll(sb, sk, Pad(t))
  }

  /** Block k of a text. */
  function BlockAt(s: seq<bv8>, k: nat): Block
    requires 8 * k + 8 <= |s|
  {
    s[8 * k..8 * k + 8]
  }

  lemma {:induction false} CryptAllRoundTrip(sb: Boxes, sk: Schedule, s: seq<bv8>)
    requires |s| % 8 == 0
    ensures CryptAll(sb, Reversed(sk), CryptAll(sb, sk, s)) == s
    decreases |s|
  {
    hide Crypt, Reversed;
    if s != [] {
      var n := |s| - 8;
      CryptAllRoundTrip(sb, sk, s[..n]);
      BlockRoundTrip(sb, sk, s[n..]);
      var c := CryptAll(sb, sk, s);
      assert c[..n] == CryptAll(sb, sk, s[..n]) && c[n..] == Crypt(sb, sk, s[n..]);
      assert s == s[..n] + s[n..];
    }
  }

  lemma {:induction false} EncodedLength(sb: Boxes, sk: Schedule, t: seq<bv8>)
    ensures |Encoded(sb, sk, t)| == 8 * (|t| / 8 + 1)
  {
  }

  lemma {:induction false} Deciphered(sb: Boxes, sk: Schedule, text: seq<bv8>, t: seq<bv8>)
    requires |text| % 8 == 0
    ensures text == Encoded(sb, sk, t) <==> CryptAll(sb, Reversed(sk), text) == Pad(t)
  {
    hide Crypt, Reversed, Pad;
    CryptAllRoundTrip(sb, sk, Pad(t));
    CryptAllRoundTrip(sb, Reversed(sk), text);
    ReversedTwice(sk);
  }

  /** A padded text has one reading. */
  lemma {:induction false} PadUnique(t: seq<bv8>, p: seq<bv8>, i: nat)
    requires i < |p| && |p| - 8 <= i && |p| % 8 == 0 && p[i] == 0x80 && forall j | i < j < |p| :: p[j] == 0
    ensures Pad(t) == p <==> t == p[..i]
  {
    var q := Pad(t);
    assert q[|t|] == 0x80 && q[..|t|] == t;
    forall j | |t| < j < |q| ensures q[j] == 0 { assert q[j] == Zeros(7 - |t| % 8)[j - |t| - 1]; }
    if t == p[..i] {
      assert q == p;
    }
    if q == p {
      assert |t| == i;
    }
  }

  /** A last block without the mark is no padding. */
  lemma {:induction false} NoPad(t: seq<bv8>, p: seq<bv8>, i: nat)
    requires |p| % 8 == 0 && |p| - 8 <= i < |p|
    requires p[i] != 0 && p[i] != 0x80 && forall j | i < j < |p| :: p[j] == 0
    ensures Pad(t) != p
  {
    var q := Pad(t);
    assert q[|t|] == 0x80;
    forall j | |t| < j < |q| ensures q[j] == 0 { assert q[j] == Zeros(7 - |t| % 8)[j - |t| - 1]; }
  }

  lemma {:induction false} NoMark(t: seq<bv8>, p: seq<bv8>)
    requires |p| % 8 == 0 && |p| > 0 && forall j | |p| - 8 <= j < |p| :: p[j] == 0
    ensures Pad(t) != p
  {
    assert Pad(t)[|t|] == 0x80;
  }

  // ----- the code -----

  /** `des_crypt` */
  method DesCrypt(sk: Schedule, input: Block) returns (output: Block)
    ensures output == Crypt(Tables(), sk, input)
  {
    hide Tables, KeySchedule, Mix, InitialPermutation, FinalPermutation, Join, PutWord, Xor;
    ghost var p := InitialPermutation(Pair(GetWord(input, 0), GetWord(input, 4)));
    var x, y := GetWord(input, 0), GetWord(input, 4);
    var ip := InitialPermutation(Pair(x, y));
    x, y := ip.x, ip.y;
    x, y := DoubleRound(sk, 0, x, y, p);
    x, y := DoubleRound(sk, 1, x, y, p);
    x, y := DoubleRound(sk, 2, x, y, p);
    x, y := DoubleRound(sk, 3, x, y, p);
    x, y := DoubleRound(sk, 4, x, y, p);
    x, y := DoubleRound(sk, 5, x, y, p);
    x, y := DoubleRound(sk, 6, x, y, p);
    x, y := DoubleRound(sk, 7, x, y, p);
    var fp := FinalPermutation(Pair(y, x));
    output := PutWord(fp.x) + PutWord(fp.y);
  }

  /** Two rounds of `DES_ROUND`, one into each half, with the next four subkeys. */
  method DoubleRound(sk: Schedule, i: nat, x0: bv32, y0: bv32, ghost p: Pair) returns (x: bv32, y: bv32)
    requires i < 8 && Pair(x0, y0) == Rounds(Tables(), sk, 2 * i, p)
    ensures Pair(x, y) == Rounds(Tables(), sk, 2 * i + 2, p)
  {
    hide Tables, Mix, Xor, Rounds;
    x := Xor(x0, Mix(Tables(), sk[4 * i], sk[4 * i + 1], y0));
    EvenRound(Tables(), sk, 2 * i, p, x0, y0);
    y := Xor(y0, Mix(Tables(), sk[4 * i + 2], sk[4 * i + 3], x));
    OddRound(Tables(), sk, 2 * i + 1, p, x, y0);
  }

  lemma {:induction false} EvenRound(sb: Boxes, sk: Schedule, n: nat, p: Pair, x: bv32, y: bv32)
    requires n < 16 && n % 2 == 0 && Pair(x, y) == Rounds(sb, sk, n, p)
    ensures Rounds(sb, sk, n + 1, p) == Pair(Xor(x, Mix(sb, sk[2 * n], sk[2 * n + 1], y)), y)
  {
    hide Mix, Xor;
  }

  lemma {:induction false} OddRound(sb: Boxes, sk: Schedule, n: nat, p: Pair, x: bv32, y: bv32)
    requires n < 16 && n % 2 == 1 && Pair(x, y) == Rounds(sb, sk, n, p)
    ensures Rounds(sb, sk, n + 1, p) == Pair(x, Xor(y, Mix(sb, sk[2 * n], sk[2 * n + 1], x)))
  {
    hide Mix, Xor;
  }

  /** Lengths and indices that an `int` holds are below this. */
  const INT_RANGE := 0x8000_0000

  /** What a call comes to: bytes, an error raised, a read in front of the buffer, or an index that an
      `int` does not hold, after which the behaviour is not determined. */
  datatype Outcome = Text(text: seq<bv8>) | Invalid | BeforeBuffer | Overflow

  /** `ldesencode`. */
  method DesEncode(key: seq<bv8>, text: seq<bv8>) returns (r: Outcome)
    ensures |key| != 8 ==> r == Invalid
    ensures |key| == 8 ==> r == if |text| < INT_RANGE then Text(Encoded(Tables(), KeySchedule(key), text)) else Overflow
  {
    hide Tables, KeySchedule, Crypt, CryptAll, Encoded, Zeros;
    if |key| != 8 {
      return Invalid;
    }
    var sk := MainKs(key);
    // (int)textsz
    if |text| >= INT_RANGE {
      return Overflow;
    }
    var buffer := new bv8[8 * (|text| / 8 + 1)];
    var i, fits := CryptBlocks(sk, text, |text| - 7, buffer);
    var tail := Tail(text, i);
    var last := DesCrypt(sk, tail);
    Store(buffer, i, last);
    LastBlock(Tables(), sk, text, i, tail);
    assert buffer[..] == buffer[..i + 8];
    r := Text(buffer[..]);
  }

  lemma {:induction false} LastBlock(sb: Boxes, sk: Schedule, text: seq<bv8>, i: nat, tail: Block)
    requires i % 8 == 0 && i <= |text| < i + 8 && tail == text[i..] + [0x80] + Zeros(7 - |text| % 8)
    ensures CryptAll(sb, sk, text[..i]) + Crypt(sb, sk, tail) == Encoded(sb, sk, text)
  {
    hide Crypt;
    assert Pad(text)[..i] == text[..i] && Pad(text)[i..i + 8] == tail && Pad(text)[..i + 8] == Pad(text);
    CryptSnoc(sb, sk, Pad(text), i);
  }

  /** The last block of a text: what is left of it, the mark, and zeros. */
  method Tail(text: seq<bv8>, i: nat) returns (tail: Block)
    requires i <= |text| < i + 8 && i % 8 == 0
    ensures tail == text[i..] + [0x80] + Zeros(7 - |text| % 8)
  {
    var bytes := |text| - i;
    var a := new bv8[8];
    var j := 0;
    while j < 8
      invariant 0 <= j <= 8
      invariant forall l | 0 <= l < j :: a[l] == (if l < bytes then text[i + l] else if l == bytes then 0x80 else 0)
    {
      if j < bytes {
        a[j] := text[i + j];
      } else if j == bytes {
        a[j] := 0x80;
      } else {
        a[j] := 0;
      }
      j := j + 1;
    }
    assert a[..] == text[i..] + [0x80] + Zeros(7 - |text| % 8);
    tail := a[..];
  }

  /** The loop over blocks of both directions, with an `int` for its index. */
  method CryptBlocks(sk: Schedule, text: seq<bv8>, end: int, buffer: array<bv8>) returns (i: nat, fits: bool)
    requires (end == |text| - 7 || (end == |text| && |text| % 8 == 0)) && buffer.Length >= |text|
    modifies buffer
    ensures i % 8 == 0 && i <= |text| && i <= buffer.Length && (i == 0 || i < end + 8)
    ensures fits ==> end <= i
    ensures buffer[..i] == CryptAll(Tables(), sk, text[..i])
    ensures end == |text| || |text| < INT_RANGE ==> (fits <==> |text| < INT_RANGE)
  {
    hide Tables, KeySchedule, Crypt, CryptAll;
    i := 0;
    CryptNone(Tables(), sk, text);
    while i < end
      invariant i % 8 == 0 && i <= |text| && i <= buffer.Length && (i == 0 || i < end + 8) && i < INT_RANGE
      invariant buffer[..i] == CryptAll(Tables(), sk, text[..i])
    {
      var block := DesCrypt(sk, text[i..i + 8]);
      Store(buffer, i, block);
      CryptSnoc(Tables(), sk, text, i);
      if i + 8 >= INT_RANGE {
        return i, false;
      }
      i := i + 8;
    }
    fits := true;
  }

  lemma {:induction false} CryptNone(sb: Boxes, sk: Schedule, text: seq<bv8>)
    ensures CryptAll(sb, sk, text[..0]) == []
  {
  }

  lemma {:induction false} CryptSnoc(sb: Boxes, sk: Schedule, text: seq<bv8>, i: nat)
    requires i % 8 == 0 && i + 8 <= |text|
    ensures CryptAll(sb, sk, text[..i + 8]) == CryptAll(sb, sk, text[..i]) + Crypt(sb, sk, text[i..i + 8])
  {
    hide Crypt;
    assert text[..i + 8][..i] == text[..i] && text[..i + 8][i..] == text[i..i + 8];
  }

  method Store(buffer: array<bv8>, i: nat, block: Block)
    requires i + 8 <= buffer.Length
    modifies buffer
    ensures buffer[..i + 8] == old(buffer[..i]) + block
    ensures buffer[i + 8..] == old(buffer[i + 8..])
  {
    forall j | 0 <= j < 8 {
      buffer[i + j] := block[j];
    }
  }

  /** `ldesdecode`: it gives back exactly what was enciphered with the same key. It leaves its buffer
      exactly for the cipher of eight zeros, and its index leaves the `int` range exactly for texts of
      2^31 bytes and more. */
  method DesDecode(key: seq<bv8>, text: seq<bv8>) returns (r: Outcome)
    ensures |key| != 8 ==> r == Invalid
    ensures |key| == 8 ==> (r == Overflow <==> |text| % 8 == 0 && |text| >= INT_RANGE)
    ensures |key| == 8 && r != Overflow ==> forall t :: r == Text(t) <==> text == Encoded(Tables(), KeySchedule(key), t)
    ensures |key| == 8 ==> (r == BeforeBuffer <==> text == Crypt(Tables(), KeySchedule(key), Zeros(8)))
  {
    hide Tables, KeySchedule, Crypt, Pad, CryptAll, Encoded, Reversed, Zeros;
    if |key| != 8 {
      return Invalid;
    }
    var esk := MainKs(key);
    var sk := ReverseKeys(esk);
    if |text| % 8 != 0 || |text| == 0 {
      forall t ensures text != Encoded(Tables(), esk, t) { EncodedLength(Tables(), esk, t); }
      return Invalid;
    }
    var buffer := new bv8[|text|];
    var i, fits := CryptBlocks(sk, text, |text|, buffer);
    if !fits {
      return Overflow;
    }
    assert text[..i] == text && buffer[..i] == buffer[..];
    forall t ensures text == Encoded(Tables(), esk, t) <==> buffer[..] == Pad(t) {
      Deciphered(Tables(), esk, text, t);
    }
    ZerosDeciphered(Tables(), esk, text);
    r := Unpad(buffer[..]);
  }

  /** A text deciphers to eight zeros exactly if it is their cipher. */
  lemma {:induction false} ZerosDeciphered(sb: Boxes, sk: Schedule, text: seq<bv8>)
    requires |text| % 8 == 0
    ensures CryptAll(sb, Reversed(sk), text) == Zeros(8) <==> text == Crypt(sb, sk, Zeros(8))
  {
    hide Crypt, Reversed, Zeros;
    OneBlock(sb, sk, Zeros(8));
    CryptAllRoundTrip(sb, sk, Zeros(8));
    CryptAllRoundTrip(sb, Reversed(sk), text);
    ReversedTwice(sk);
  }

  lemma {:induction false} OneBlock(sb: Boxes, sk: Schedule, b: Block)
    ensures CryptAll(sb, sk, b) == Crypt(sb, sk, b)
  {
    hide Crypt;
    assert b[..0] == [] && b[0..] == b && CryptAll(sb, sk, []) == [];
  }

  /** For every key there is a text that makes `ldesdecode` read in front of its buffer. */
  method DecodeZeros(key: Block) returns (text: seq<bv8>, r: Outcome)
    ensures |text| == 8 && r == BeforeBuffer
  {
    hide Tables, KeySchedule, Crypt;
    var sk := MainKs(key);
    text := DesCrypt(sk, Zeros(8));
    r := DesDecode(key, text);
  }

  /** The loop that turns the subkeys round. */
  method ReverseKeys(esk: Schedule) returns (sk: Schedule)
    ensures sk == Reversed(esk)
  {
    var a := new bv32[32];
    var i := 0;
    while i < 32
      invariant 0 <= i <= 32 && i % 2 == 0
      invariant forall j | 0 <= j < i :: a[j] == Reversed(esk)[j]
    {
      a[i] := esk[30 - i];
      a[i + 1] := esk[31 - i];
      i := i + 2;
    }
    sk := a[..];
  }

  /** `i >= n` for an `int` and a `size_t`: converted, a negative `i` is larger than every size. */
  predicate AtLeast(i: int, n: nat) { i < 0 || i >= n }

  /** The loop that counts the padding. */
  method Unpad(buffer: seq<bv8>) returns (r: Outcome)
    requires |buffer| % 8 == 0 && 0 < |buffer| < INT_RANGE
    ensures r != Overflow && forall t :: r == Text(t) <==> buffer == Pad(t)
    ensures r == BeforeBuffer <==> buffer == Zeros(8)
  {
    hide Tables, KeySchedule, Pad;
    var padding, i := 1, |buffer| - 1;
    while AtLeast(i, |buffer| - 8)
      invariant |buffer| - 9 <= i < |buffer| && padding == |buffer| - i
      invariant forall j | i < j < |buffer| :: buffer[j] == 0
      decreases i
    {
      if i < 0 {
        forall t ensures buffer != Pad(t) { NoMark(t, buffer); }
        return BeforeBuffer;
      }
      if buffer[i] == 0 {
        padding := padding + 1;
      } else if buffer[i] == 0x80 {
        break;
      } else {
        forall t ensures buffer != Pad(t) { NoPad(t, buffer, i); }
        return Invalid;
      }
      i := i - 1;
    }
    if padding > 8 {
      forall t ensures buffer != Pad(t) { NoMark(t, buffer); }
      return Invalid;
    }
    r := Text(buffer[..|buffer| - padding]);
    forall t ensures r == Text(t) <==> buffer == Pad(t) { PadUnique(t, buffer, i); }
  }
}
