/** The data encryption standard, FIPS 46-3, bit by bit. Bits are numbered from the left, from 1. */
module DesStandard {

  type Index = i: bv7 | 1 <= i <= 64 witness 1

  function Bit(b: bv64, i: Index): bv64
  {
    (b << (i - 1)) >> 63
  }

  /** A row of a table: the bits it names, in this order. */
  function Eight(b: bv64, h: Index, i: Index, j: Index, k: Index, l: Index, m: Index, n: Index, o: Index): bv64
  {
    (Bit(b, h) << 7) | (Bit(b, i) << 6) | (Bit(b, j) << 5) | (Bit(b, k) << 4)
    | (Bit(b, l) << 3) | (Bit(b, m) << 2) | (Bit(b, n) << 1) | Bit(b, o)
  }

  function Seven(b: bv64, h: Index, i: Index, j: Index, k: Index, l: Index, m: Index, n: Index): bv64
  {
    (Bit(b, h) << 6) | (Bit(b, i) << 5) | (Bit(b, j) << 4) | (Bit(b, k) << 3)
    | (Bit(b, l) << 2) | (Bit(b, m) << 1) | Bit(b, n)
  }

  function Six(b: bv64, h: Index, i: Index, j: Index, k: Index, l: Index, m: Index): bv64
  {
    (Bit(b, h) << 5) | (Bit(b, i) << 4) | (Bit(b, j) << 3) | (Bit(b, k) << 2)
    | (Bit(b, l) << 1) | Bit(b, m)
  }

  /** The initial permutation. */
  function IP(b: bv64): bv64
  {
    (Eight(b, 58, 50, 42, 34, 26, 18, 10, 2) << 56)
    | (Eight(b, 60, 52, 44, 36, 28, 20, 12, 4) << 48)
    | (Eight(b, 62, 54, 46, 38, 30, 22, 14, 6) << 40)
    | (Eight(b, 64, 56, 48, 40, 32, 24, 16, 8) << 32)
    | (Eight(b, 57, 49, 41, 33, 25, 17, 9, 1) << 24)
    | (Eight(b, 59, 51, 43, 35, 27, 19, 11, 3) << 16)
    | (Eight(b, 61, 53, 45, 37, 29, 21, 13, 5) << 8)
    | Eight(b, 63, 55, 47, 39, 31, 23, 15, 7)
  }

  /** The inverse initial permutation. */
  function InverseIP(b: bv64): bv64
  {
    (Eight(b, 40, 8, 48, 16, 56, 24, 64, 32) << 56)
    | (Eight(b, 39, 7, 47, 15, 55, 23, 63, 31) << 48)
    | (Eight(b, 38, 6, 46, 14, 54, 22, 62, 30) << 40)
    | (Eight(b, 37, 5, 45, 13, 53, 21, 61, 29) << 32)
    | (Eight(b, 36, 4, 44, 12, 52, 20, 60, 28) << 24)
    | (Eight(b, 35, 3, 43, 11, 51, 19, 59, 27) << 16)
    | (Eight(b, 34, 2, 42, 10, 50, 18, 58, 26) << 8)
    | Eight(b, 33, 1, 41, 9, 49, 17, 57, 25)
  }

  /** The bit-selection table E. */
  function E(b: bv32): bv48
  {
    var v := (b as bv64) << 32;
    ((Six(v, 32, 1, 2, 3, 4, 5) << 42)
    | (Six(v, 4, 5, 6, 7, 8, 9) << 36)
    | (Six(v, 8, 9, 10, 11, 12, 13) << 30)
    | (Six(v, 12, 13, 14, 15, 16, 17) << 24)
    | (Six(v, 16, 17, 18, 19, 20, 21) << 18)
    | (Six(v, 20, 21, 22, 23, 24, 25) << 12)
    | (Six(v, 24, 25, 26, 27, 28, 29) << 6)
    | Six(v, 28, 29, 30, 31, 32, 1)) as bv48
  }

  /** The permutation P. */
  function P(b: bv32): bv32
  {
    var v := (b as bv64) << 32;
    ((Eight(v, 16, 7, 20, 21, 29, 12, 28, 17) << 24)
    | (Eight(v, 1, 15, 23, 26, 5, 18, 31, 10) << 16)
    | (Eight(v, 2, 8, 24, 14, 32, 27, 3, 9) << 8)
    | Eight(v, 19, 13, 30, 6, 22, 11, 4, 25)) as bv32
  }

  /** Permuted choice 1: 56 bits of the key. */
  function PC1(b: bv64): bv56
  {
    ((Seven(b, 57, 49, 41, 33, 25, 17, 9) << 49)
    | (Seven(b, 1, 58, 50, 42, 34, 26, 18) << 42)
    | (Seven(b, 10, 2, 59, 51, 43, 35, 27) << 35)
    | (Seven(b, 19, 11, 3, 60, 52, 44, 36) << 28)
    | (Seven(b, 63, 55, 47, 39, 31, 23, 15) << 21)
    | (Seven(b, 7, 62, 54, 46, 38, 30, 22) << 14)
    | (Seven(b, 14, 6, 61, 53, 45, 37, 29) << 7)
    | Seven(b, 21, 13, 5, 28, 20, 12, 4)) as bv56
  }

  /** Permuted choice 2. */
  function PC2(b: bv56): bv48
  {
    var v := (b as bv64) << 8;
    ((Six(v, 14, 17, 11, 24, 1, 5) << 42)
    | (Six(v, 3, 28, 15, 6, 21, 10) << 36)
    | (Six(v, 23, 19, 12, 4, 26, 8) << 30)
    | (Six(v, 16, 7, 27, 20, 13, 2) << 24)
    | (Six(v, 41, 52, 31, 37, 47, 55) << 18)
    | (Six(v, 30, 40, 51, 45, 33, 48) << 12)
    | (Six(v, 44, 49, 39, 56, 34, 53) << 6)
    | Six(v, 46, 42, 50, 36, 29, 32)) as bv48
  }

  /** The number of left shifts of each iteration. */
  function Shifts(i: nat): bv28
    requires i < 16
  {
    [1, 1, 2, 2, 2, 2, 2, 2, 1, 2, 2, 2, 2, 2, 2, 1][i]
  }

  function S1(row: nat, col: nat): bv4
    requires row < 4 && col < 16
  {
    match row
    case 0 => [14, 4, 13, 1, 2, 15, 11, 8, 3, 10, 6, 12, 5, 9, 0, 7][col]
    case 1 => [0, 15, 7, 4, 14, 2, 13, 1, 10, 6, 12, 11, 9, 5, 3, 8][col]
    case 2 => [4, 1, 14, 8, 13, 6, 2, 11, 15, 12, 9, 7, 3, 10, 5, 0][col]
    case _ => [15, 12, 8, 2, 4, 9, 1, 7, 5, 11, 3, 14, 10, 0, 6, 13][col]
  }

  function S2(row: nat, col: nat): bv4
    requires row < 4 && col < 16
  {
    match row
    case 0 => [15, 1, 8, 14, 6, 11, 3, 4, 9, 7, 2, 13, 12, 0, 5, 10][col]
    case 1 => [3, 13, 4, 7, 15, 2, 8, 14, 12, 0, 1, 10, 6, 9, 11, 5][col]
    case 2 => [0, 14, 7, 11, 10, 4, 13, 1, 5, 8, 12, 6, 9, 3, 2, 15][col]
    case _ => [13, 8, 10, 1, 3, 15, 4, 2, 11, 6, 7, 12, 0, 5, 14, 9][col]
  }

  function S3(row: nat, col: nat): bv4
    requires row < 4 && col < 16
  {
    match row
    case 0 => [10, 0, 9, 14, 6, 3, 15, 5, 1, 13, 12, 7, 11, 4, 2, 8][col]
    case 1 => [13, 7, 0, 9, 3, 4, 6, 10, 2, 8, 5, 14, 12, 11, 15, 1][col]
    case 2 => [13, 6, 4, 9, 8, 15, 3, 0, 11, 1, 2, 12, 5, 10, 14, 7][col]
    case _ => [1, 10, 13, 0, 6, 9, 8, 7, 4, 15, 14, 3, 11, 5, 2, 12][col]
  }

  function S4(row: nat, col: nat): bv4
    requires row < 4 && col < 16
  {
    match row
    case 0 => [7, 13, 14, 3, 0, 6, 9, 10, 1, 2, 8, 5, 11, 12, 4, 15][col]
    case 1 => [13, 8, 11, 5, 6, 15, 0, 3, 4, 7, 2, 12, 1, 10, 14, 9][col]
    case 2 => [10, 6, 9, 0, 12, 11, 7, 13, 15, 1, 3, 14, 5, 2, 8, 4][col]
    case _ => [3, 15, 0, 6, 10, 1, 13, 8, 9, 4, 5, 11, 12, 7, 2, 14][col]
  }

  function S5(row: nat, col: nat): bv4
    requires row < 4 && col < 16
  {
    match row
    case 0 => [2, 12, 4, 1, 7, 10, 11, 6, 8, 5, 3, 15, 13, 0, 14, 9][col]
    case 1 => [14, 11, 2, 12, 4, 7, 13, 1, 5, 0, 15, 10, 3, 9, 8, 6][col]
    case 2 => [4, 2, 1, 11, 10, 13, 7, 8, 15, 9, 12, 5, 6, 3, 0, 14][col]
    case _ => [11, 8, 12, 7, 1, 14, 2, 13, 6, 15, 0, 9, 10, 4, 5, 3][col]
  }

  function S6(row: nat, col: nat): bv4
    requires row < 4 && col < 16
  {
    match row
    case 0 => [12, 1, 10, 15, 9, 2, 6, 8, 0, 13, 3, 4, 14, 7, 5, 11][col]
    case 1 => [10, 15, 4, 2, 7, 12, 9, 5, 6, 1, 13, 14, 0, 11, 3, 8][col]
    case 2 => [9, 14, 15, 5, 2, 8, 12, 3, 7, 0, 4, 10, 1, 13, 11, 6][col]
    case _ => [4, 3, 2, 12, 9, 5, 15, 10, 11, 14, 1, 7, 6, 0, 8, 13][col]
  }

  function S7(row: nat, col: nat): bv4
    requires row < 4 && col < 16
  {
    match row
    case 0 => [4, 11, 2, 14, 15, 0, 8, 13, 3, 12, 9, 7, 5, 10, 6, 1][col]
    case 1 => [13, 0, 11, 7, 4, 9, 1, 10, 14, 3, 5, 12, 2, 15, 8, 6][col]
    case 2 => [1, 4, 11, 13, 12, 3, 7, 14, 10, 15, 6, 8, 0, 5, 9, 2][col]
    case _ => [6, 11, 13, 8, 1, 4, 10, 7, 9, 5, 0, 15, 14, 2, 3, 12][col]
  }

  function S8(row: nat, col: nat): bv4
    requires row < 4 && col < 16
  {
    match row
    case 0 => [13, 2, 8, 4, 6, 15, 11, 1, 10, 9, 3, 14, 5, 0, 12, 7][col]
    case 1 => [1, 15, 13, 8, 10, 3, 7, 4, 12, 5, 6, 11, 0, 14, 9, 2][col]
    case 2 => [7, 11, 4, 1, 9, 12, 14, 2, 0, 6, 10, 13, 15, 3, 5, 8][col]
    case _ => [2, 1, 14, 7, 4, 10, 8, 13, 15, 12, 9, 0, 3, 5, 6, 11][col]
  }

  // ----- the cipher -----

  /** Six bits choose a row by the two outer ones and a column by the four inner ones. */
  function Row(b: bv6): (r: nat)
    ensures r < 4
  {
    (((b >> 4) & 2) | (b & 1)) as bv2 as nat
  }

  function Col(b: bv6): (c: nat)
    ensures c < 16
  {
    ((b >> 1) & 0xF) as bv4 as nat
  }

  /** Six bits of 48, from bit i + 1 on. */
  function Group(x: bv48, i: bv48): bv6
    requires i <= 42
  {
    ((x >> (42 - i)) & 0x3F) as bv6
  }

  /** The 32 bits chosen by 48, six for each table. */
  function Selected(x: bv48): bv32
  {
    var b1, b2, b3, b4 := Group(x, 0), Group(x, 6), Group(x, 12), Group(x, 18);
    var b5, b6, b7, b8 := Group(x, 24), Group(x, 30), Group(x, 36), Group(x, 42);
    Concat(S1(Row(b1), Col(b1)), S2(Row(b2), Col(b2)), S3(Row(b3), Col(b3)), S4(Row(b4), Col(b4)),
           S5(Row(b5), Col(b5)), S6(Row(b6), Col(b6)), S7(Row(b7), Col(b7)), S8(Row(b8), Col(b8)))
  }

  function Concat(v1: bv4, v2: bv4, v3: bv4, v4: bv4, v5: bv4, v6: bv4, v7: bv4, v8: bv4): bv32
  {
    ((v1 as bv32) << 28) | ((v2 as bv32) << 24) | ((v3 as bv32) << 20) | ((v4 as bv32) << 16)
    | ((v5 as bv32) << 12) | ((v6 as bv32) << 8) | ((v7 as bv32) << 4) | (v8 as bv32)
  }

  function Left(b: bv64): bv32
  {
    (b >> 32) as bv32
  }

  function Right(b: bv64): bv32
  {
    (b & 0xFFFFFFFF) as bv32
  }

  function Join(x: bv32, y: bv32): bv64
  {
    ((x as bv64) << 32) | (y as bv64)
  }

  function Xor(a: bv32, b: bv32): bv32
  {
    a ^ b
  }

  function Xor48(a: bv48, b: bv48): bv48
  {
    a ^ b
  }

  function F(r: bv32, k: bv48): bv32
  {
    P(Selected(Xor48(E(r), k)))
  }

  datatype Halves = Halves(l: bv32, r: bv32)

  datatype KeyHalves = KeyHalves(c: bv28, d: bv28)

  function RotateLeft(c: bv28, n: bv28): bv28
    requires n <= 28
  {
    (c << n) | (c >> (28 - n))
  }

  function Left28(cd: bv56): bv28
  {
    (cd >> 28) as bv28
  }

  function Right28(cd: bv56): bv28
  {
    (cd & 0xFFFFFFF) as bv28
  }

  function Join28(c: bv28, d: bv28): bv56
  {
    ((c as bv56) << 28) | (d as bv56)
  }

  /** C and D after n iterations. */
  function KeyState(key: bv64, n: nat): KeyHalves
    requires n <= 16
  {
    if n == 0 then
      var cd := PC1(key);
      KeyHalves(Left28(cd), Right28(cd))
    else
      var s := KeyState(key, n - 1);
      KeyHalves(RotateLeft(s.c, Shifts(n - 1)), RotateLeft(s.d, Shifts(n - 1)))
  }

  /** The subkey of iteration n, from 1 on. */
  function Subkey(key: bv64, n: nat): bv48
    requires 1 <= n <= 16
  {
    var s := KeyState(key, n);
    PC2(Join28(s.c, s.d))
  }

  /** L and R after n iterations. */
  function Iterated(key: bv64, n: nat, h: Halves): Halves
    requires n <= 16
  {
    if n == 0 then h
    else
      var g := Iterated(key, n - 1, h);
      Halves(g.r, Xor(g.l, F(g.r, Subkey(key, n))))
  }

  function Encipher(key: bv64, b: bv64): bv64
  {
    var p := IP(b);
    var h := Iterated(key, 16, Halves(Left(p), Right(p)));
    InverseIP(Join(h.r, h.l))
  }
}
