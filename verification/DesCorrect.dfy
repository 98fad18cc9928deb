/** The block cipher of lua-crypt.c is the data encryption standard. */
module DesCorrect {
  import opened Des
  import opened DesTables
  import DS = DesStandard

  /** The 64 bits of a block. */
  function Number(b: Block): bv64
  {
    DS.Join(GetWord(b, 0), GetWord(b, 4))
  }

  // ----- the permutations -----

  /** The rounds work on halves that are rotated by one. */
  lemma {:induction false} InitialIsIP(p: Pair)
    ensures var q := InitialPermutation(p); DS.IP(DS.Join(p.x, p.y)) == DS.Join(RotR(q.x), RotR(q.y))
  {
  }

  lemma {:induction false} FinalIsInverse(p: Pair)
    ensures var q := FinalPermutation(p); DS.InverseIP(DS.Join(RotR(p.x), RotR(p.y))) == DS.Join(q.x, q.y)
  {
  }

  // ----- the key schedule -----

  function Spread(n: bv32): bv32
  {
    (n & 1) | ((n & 2) << 7) | ((n & 4) << 14) | ((n & 8) << 21)
  }

  lemma {:induction false} LeftSpread(n: bv32)
    ensures LHs(Nibble(n)) == Spread(n)
  {
  }

  lemma {:induction false} RightSpread(n: bv32)
    ensures RHs(Nibble(n)) == Mirrored(n)
  {
  }

  function Mirrored(n: bv32): bv32
  {
    ((n & 1) << 24) | ((n & 2) << 15) | ((n & 4) << 6) | ((n & 8) >> 3)
  }

  function LeftBits(x: bv32): bv32
  {
    (Spread(x) << 3) | (Spread(x >> 8) << 2) | (Spread(x >> 16) << 1) | Spread(x >> 24)
    | (Spread(x >> 5) << 7) | (Spread(x >> 13) << 6) | (Spread(x >> 21) << 5) | (Spread(x >> 29) << 4)
  }

  function RightBits(y: bv32): bv32
  {
    (Mirrored(y >> 1) << 3) | (Mirrored(y >> 9) << 2) | (Mirrored(y >> 17) << 1) | Mirrored(y >> 25)
    | (Mirrored(y >> 4) << 7) | (Mirrored(y >> 12) << 6) | (Mirrored(y >> 20) << 5) | (Mirrored(y >> 28) << 4)
  }

  lemma {:induction false} HalvesAreBits(x: bv32, y: bv32)
    ensures LeftHalf(x) == LeftBits(x) && RightHalf(y) == RightBits(y)
  {
    hide Spread, LHs, Mirrored, RHs, Nibble;
    forall n ensures LHs(Nibble(n)) == Spread(n) && RHs(Nibble(n)) == Mirrored(n) {
      LeftSpread(n);
      RightSpread(n);
    }
  }

  /** A half of the key in the low bits of a word. */
  function Word(c: bv28): bv32
  {
    c as bv32
  }

  function Joined(x: bv32, y: bv32): bv56
  {
    ((Low28(x) as bv56) << 28) | (Low28(y) as bv56)
  }

  lemma {:induction false} BitsArePC1(p: Pair, q: Pair)
    requires q == KeyExchange(p)
    ensures DS.PC1(DS.Join(p.x, p.y)) == Joined(LeftBits(q.x), RightBits(q.y))
  {
  }

  lemma {:induction false} HalvesOfJoined(x: bv32, y: bv32)
    ensures Word(DS.Left28(Joined(x, y))) == Low28(x) && Word(DS.Right28(Joined(x, y))) == Low28(y)
  {
  }

  lemma {:induction false} Choice1IsPC1(p: Pair)
    ensures var cd := DS.PC1(DS.Join(p.x, p.y)); Choice1(p) == Pair(Word(DS.Left28(cd)), Word(DS.Right28(cd)))
  {
    hide LeftHalf, RightHalf, LeftBits, RightBits, Joined, Low28, Word, KeyExchange;
    hide DS.PC1, DS.Join, DS.Left28, DS.Right28;
    HalvesAreBits(KeyExchange(p).x, KeyExchange(p).y);
    BitsArePC1(p, KeyExchange(p));
    HalvesOfJoined(LeftBits(KeyExchange(p).x), RightBits(KeyExchange(p).y));
  }

  lemma {:induction false} RotatedByOneOrTwo(c: bv28)
    ensures LeftOne(Word(c)) == Word(DS.RotateLeft(c, 1)) && LeftTwo(Word(c)) == Word(DS.RotateLeft(c, 2))
  {
  }

  lemma {:induction false} ShiftsByOneOrTwo(i: nat)
    requires i < 16
    ensures DS.Shifts(i) == if i < 2 || i == 8 || i == 15 then 1 else 2
  {
  }

  lemma {:induction false} ShiftedIsRotated(i: nat, c: bv28)
    requires i < 16
    ensures Shifted(i, Word(c)) == Word(DS.RotateLeft(c, DS.Shifts(i)))
  {
    hide DS.RotateLeft, DS.Shifts, LeftOne, LeftTwo, Word;
    RotatedByOneOrTwo(c);
    ShiftsByOneOrTwo(i);
  }

  /** The six bits of a word that a table looks at. */
  function Six(t: bv32): bv48
  {
    (t & 0x3F) as bv48
  }

  /** The 48 bits that two words stand for. */
  function Keys(k0: bv32, k1: bv32): bv48
  {
    (Six(k1 >> 24) << 42) | (Six(k0 >> 24) << 36) | (Six(k1 >> 16) << 30) | (Six(k0 >> 16) << 24)
    | (Six(k1 >> 8) << 18) | (Six(k0 >> 8) << 12) | (Six(k1) << 6) | Six(k0)
  }

  lemma {:induction false} SubkeyIsPC2(c: bv28, d: bv28)
    ensures DS.PC2(DS.Join28(c, d)) == Keys(Even(Word(c), Word(d)), Odd(Word(c), Word(d)))
  {
  }

  lemma {:induction false} KeyHalvesAgree(key: Block, n: nat)
    requires n <= 16
    ensures var s := DS.KeyState(Number(key), n); KeyHalves(key, n) == Pair(Word(s.c), Word(s.d))
  {
    hide Choice1, Shifted, GetWord, DS.RotateLeft, DS.Shifts, DS.PC1, DS.Left28, DS.Right28, DS.Join, Word;
    if n == 0 {
      Choice1IsPC1(Pair(GetWord(key, 0), GetWord(key, 4)));
    } else {
      KeyHalvesAgree(key, n - 1);
      var s := DS.KeyState(Number(key), n - 1);
      ShiftedIsRotated(n - 1, s.c);
      ShiftedIsRotated(n - 1, s.d);
    }
  }

  lemma {:induction false} ScheduleAt(key: Block, n: nat)
    requires n < 16
    ensures var p := KeyHalves(key, n + 1); var sk := KeySchedule(key);
      sk[2 * n] == Even(p.x, p.y) && sk[2 * n + 1] == Odd(p.x, p.y)
  {
    hide KeyHalves, Even, Odd;
  }

  lemma {:induction false} HalvesGiveSubkey(key: Block, n: nat, p: Pair)
    requires n < 16 && p == KeyHalves(key, n + 1)
    ensures Keys(Even(p.x, p.y), Odd(p.x, p.y)) == DS.Subkey(Number(key), n + 1)
  {
    hide Even, Odd, Keys, KeyHalves, DS.KeyState, DS.PC2, DS.Join28, Number, Word;
    KeyHalvesAgree(key, n + 1);
    var s := DS.KeyState(Number(key), n + 1);
    SubkeyIsPC2(s.c, s.d);
  }

  /** The key schedule gives the subkeys of the standard, for every key. */
  lemma {:induction false} SubkeysAgree(key: Block, n: nat)
    requires n < 16
    ensures var sk := KeySchedule(key); Keys(sk[2 * n], sk[2 * n + 1]) == DS.Subkey(Number(key), n + 1)
  {
    hide Even, Odd, Keys, KeySchedule, KeyHalves, DS.Subkey, Number;
    ScheduleAt(key, n);
    HalvesGiveSubkey(key, n, KeyHalves(key, n + 1));
  }

  // ----- the rounds -----

  lemma {:induction false} KeysXor(a0: bv32, a1: bv32, b0: bv32, b1: bv32)
    ensures Keys(Xor(a0, b0), Xor(a1, b1)) == DS.Xor48(Keys(b0, b1), Keys(a0, a1))
  {
  }

  lemma {:induction false} ExpandedIsE(y: bv32)
    ensures Keys(y, RotR4(y)) == DS.E(RotR(y))
  {
  }

  /** Where the four bits of a table go in a rotated word. */
  function Place1(v: bv4): bv32
  {
    var n := v as bv32;
    ((n & 8) << 21) | ((n & 4) << 14) | ((n & 2) << 9) | ((n & 1) << 2)
  }

  function Place2(v: bv4): bv32
  {
    var n := v as bv32;
    ((n & 8) << 17) | ((n & 4) << 3) | ((n & 2) << 30) | ((n & 1) << 15)
  }

  function Place3(v: bv4): bv32
  {
    var n := v as bv32;
    ((n & 8) << 6) | ((n & 4) << 15) | ((n & 2) << 2) | ((n & 1) << 27)
  }

  function Place4(v: bv4): bv32
  {
    var n := v as bv32;
    ((n & 8) << 4) | ((n & 4) << 11) | ((n & 2) << 22) | (n & 1)
  }

  function Place5(v: bv4): bv32
  {
    var n := v as bv32;
    ((n & 8) << 22) | ((n & 4) << 17) | ((n & 2) << 7) | ((n & 1) << 30)
  }

  function Place6(v: bv4): bv32
  {
    var n := v as bv32;
    ((n & 8) << 26) | ((n & 4) << 2) | ((n & 2) << 21) | ((n & 1) << 14)
  }

  function Place7(v: bv4): bv32
  {
    var n := v as bv32;
    ((n & 8) >> 2) | ((n & 4) << 19) | ((n & 2) << 10) | ((n & 1) << 26)
  }

  function Place8(v: bv4): bv32
  {
    var n := v as bv32;
    ((n & 8) << 25) | ((n & 4) << 4) | ((n & 2) << 17) | ((n & 1) << 12)
  }

  lemma {:induction false} Box1(b: bv6)
    ensures Sb1(b as nat) == Place1(DS.S1(DS.Row(b), DS.Col(b)))
  {
    // one quarter of the table at a time
    if b & 0x20 == 0 {
      if b & 0x10 == 0 { } else { }
    } else {
      if b & 0x10 == 0 { } else { }
    }
  }

  lemma {:induction false} Box2(b: bv6)
    ensures Sb2(b as nat) == Place2(DS.S2(DS.Row(b), DS.Col(b)))
  {
    // one quarter of the table at a time
    if b & 0x20 == 0 {
      if b & 0x10 == 0 { } else { }
    } else {
      if b & 0x10 == 0 { } else { }
    }
  }

  lemma {:induction false} Box3(b: bv6)
    ensures Sb3(b as nat) == Place3(DS.S3(DS.Row(b), DS.Col(b)))
  {
    // one quarter of the table at a time
    if b & 0x20 == 0 {
      if b & 0x10 == 0 { } else { }
    } else {
      if b & 0x10 == 0 { } else { }
    }
  }

  lemma {:induction false} Box4(b: bv6)
    ensures Sb4(b as nat) == Place4(DS.S4(DS.Row(b), DS.Col(b)))
  {
    // one quarter of the table at a time
    if b & 0x20 == 0 {
      if b & 0x10 == 0 { } else { }
    } else {
      if b & 0x10 == 0 { } else { }
    }
  }

  lemma {:induction false} Box5(b: bv6)
    ensures Sb5(b as nat) == Place5(DS.S5(DS.Row(b), DS.Col(b)))
  {
    // one quarter of the table at a time
    if b & 0x20 == 0 {
      if b & 0x10 == 0 { } else { }
    } else {
      if b & 0x10 == 0 { } else { }
    }
  }

  lemma {:induction false} Box6(b: bv6)
    ensures Sb6(b as nat) == Place6(DS.S6(DS.Row(b), DS.Col(b)))
  {
    // one quarter of the table at a time
    if b & 0x20 == 0 {
      if b & 0x10 == 0 { } else { }
    } else {
      if b & 0x10 == 0 { } else { }
    }
  }

  lemma {:induction false} Box7(b: bv6)
    ensures Sb7(b as nat) == Place7(DS.S7(DS.Row(b), DS.Col(b)))
  {
    // one quarter of the table at a time
    if b & 0x20 == 0 {
      if b & 0x10 == 0 { } else { }
    } else {
      if b & 0x10 == 0 { } else { }
    }
  }

  lemma {:induction false} Box8(b: bv6)
    ensures Sb8(b as nat) == Place8(DS.S8(DS.Row(b), DS.Col(b)))
  {
    // one quarter of the table at a time
    if b & 0x20 == 0 {
      if b & 0x10 == 0 { } else { }
    } else {
      if b & 0x10 == 0 { } else { }
    }
  }

  /** The tables of the code join the selection functions with the permutation P. */
  lemma {:induction false} Collected(v1: bv4, v2: bv4, v3: bv4, v4: bv4, v5: bv4, v6: bv4, v7: bv4, v8: bv4, w: bv32)
    requires w == XorAll(Place8(v8), Place6(v6), Place4(v4), Place2(v2),
                         Place7(v7), Place5(v5), Place3(v3), Place1(v1))
    ensures RotR(w) == DS.P(DS.Concat(v1, v2, v3, v4, v5, v6, v7, v8))
  {
  }

  lemma {:induction false} GroupsOfKeys(t: bv32, u: bv32)
    ensures var x := Keys(t, u);
      DS.Group(x, 0) == Low(u, 24) && DS.Group(x, 6) == Low(t, 24)
      && DS.Group(x, 12) == Low(u, 16) && DS.Group(x, 18) == Low(t, 16)
      && DS.Group(x, 24) == Low(u, 8) && DS.Group(x, 30) == Low(t, 8)
      && DS.Group(x, 36) == Low(u, 0) && DS.Group(x, 42) == Low(t, 0)
  {
  }

  lemma {:induction false} TableLook(n: nat, j: nat)
    requires n < 8 && j < 64
    ensures Tables()[n][j] == Sb(n, j)
  {
    hide Sb;
  }

  /** What the tables of the code hold at eight places. */
  function LookedAt(sb: Boxes, b1: bv6, b2: bv6, b3: bv6, b4: bv6, b5: bv6, b6: bv6, b7: bv6, b8: bv6): bv32
  {
    XorAll(sb[7][b8 as nat], sb[5][b6 as nat], sb[3][b4 as nat], sb[1][b2 as nat],
           sb[6][b7 as nat], sb[4][b5 as nat], sb[2][b3 as nat], sb[0][b1 as nat])
  }

  /** And what the selection functions give there. */
  function Chosen(b1: bv6, b2: bv6, b3: bv6, b4: bv6, b5: bv6, b6: bv6, b7: bv6, b8: bv6): bv32
  {
    DS.Concat(
      DS.S1(DS.Row(b1), DS.Col(b1)), DS.S2(DS.Row(b2), DS.Col(b2)), DS.S3(DS.Row(b3), DS.Col(b3)),
      DS.S4(DS.Row(b4), DS.Col(b4)), DS.S5(DS.Row(b5), DS.Col(b5)), DS.S6(DS.Row(b6), DS.Col(b6)),
      DS.S7(DS.Row(b7), DS.Col(b7)), DS.S8(DS.Row(b8), DS.Col(b8)))
  }

  lemma {:induction false} LookedIsChosen(
      b1: bv6, b2: bv6, b3: bv6, b4: bv6, b5: bv6, b6: bv6, b7: bv6, b8: bv6)
    ensures RotR(LookedAt(Tables(), b1, b2, b3, b4, b5, b6, b7, b8))
      == DS.P(Chosen(b1, b2, b3, b4, b5, b6, b7, b8))
  {
    hide RotR, XorAll, Tables, DS.P, DS.Concat, DS.Row, DS.Col;
    hide Sb1, Sb2, Sb3, Sb4, Sb5, Sb6, Sb7, Sb8, DS.S1, DS.S2, DS.S3, DS.S4, DS.S5, DS.S6, DS.S7, DS.S8;
    hide Place1, Place2, Place3, Place4, Place5, Place6, Place7, Place8;
    TableLook(0, b1 as nat);
    TableLook(1, b2 as nat);
    TableLook(2, b3 as nat);
    TableLook(3, b4 as nat);
    TableLook(4, b5 as nat);
    TableLook(5, b6 as nat);
    TableLook(6, b7 as nat);
    TableLook(7, b8 as nat);
    Box1(b1);
    Box2(b2);
    Box3(b3);
    Box4(b4);
    Box5(b5);
    Box6(b6);
    Box7(b7);
    Box8(b8);
    Collected(
      DS.S1(DS.Row(b1), DS.Col(b1)), DS.S2(DS.Row(b2), DS.Col(b2)), DS.S3(DS.Row(b3), DS.Col(b3)),
      DS.S4(DS.Row(b4), DS.Col(b4)), DS.S5(DS.Row(b5), DS.Col(b5)), DS.S6(DS.Row(b6), DS.Col(b6)),
      DS.S7(DS.Row(b7), DS.Col(b7)), DS.S8(DS.Row(b8), DS.Col(b8)),
      LookedAt(Tables(), b1, b2, b3, b4, b5, b6, b7, b8));
  }

  lemma {:induction false} LookedIsSelected(t: bv32, u: bv32)
    ensures RotR(Looked(Tables(), t, u)) == DS.P(DS.Selected(Keys(t, u)))
  {
    hide Low, Keys, RotR, XorAll, Tables, DS.P, DS.Concat, DS.Group, DS.Row, DS.Col;
    hide DS.S1, DS.S2, DS.S3, DS.S4, DS.S5, DS.S6, DS.S7, DS.S8;
    GroupsOfKeys(t, u);
    LookedIsChosen(Low(u, 24), Low(t, 24), Low(u, 16), Low(t, 16), Low(u, 8), Low(t, 8), Low(u, 0), Low(t, 0));
  }

  /** What a round mixes in is the function f of the standard. */
  lemma {:induction false} MixIsF(k0: bv32, k1: bv32, y: bv32)
    ensures RotR(Mix(Tables(), k0, k1, y)) == DS.F(RotR(y), Keys(k0, k1))
  {
    hide Keys, RotR, RotR4, Looked, Xor, Tables, DS.Xor48, DS.P, DS.Selected, DS.E;
    LookedIsSelected(Xor(k0, y), Xor(k1, RotR4(y)));
    KeysXor(k0, k1, y, RotR4(y));
    ExpandedIsE(y);
  }

  lemma {:induction false} RotatedXor(a: bv32, b: bv32)
    ensures RotR(Xor(a, b)) == DS.Xor(RotR(a), RotR(b))
  {
  }

  /** Left and right half after n rounds: the halves of the code take turns. */
  function HalvesAfter(n: nat, p: Pair): DS.Halves
  {
    if n % 2 == 0 then DS.Halves(RotR(p.x), RotR(p.y)) else DS.Halves(RotR(p.y), RotR(p.x))
  }

  lemma {:induction false} RoundsAreIterations(key: Block, n: nat, p: Pair)
    requires n <= 16
    ensures HalvesAfter(n, Rounds(Tables(), KeySchedule(key), n, p))
      == DS.Iterated(Number(key), n, HalvesAfter(0, p))
  {
    hide Keys, KeySchedule, RotR, Mix, Xor, Tables, DS.Xor, DS.F, DS.Subkey, Number;
    if n > 0 {
      RoundsAreIterations(key, n - 1, p);
      var sk := KeySchedule(key);
      var q := Rounds(Tables(), sk, n - 1, p);
      SubkeysAgree(key, n - 1);
      var k0, k1 := sk[2 * (n - 1)], sk[2 * (n - 1) + 1];
      MixIsF(k0, k1, q.x);
      MixIsF(k0, k1, q.y);
      RotatedXor(q.x, Mix(Tables(), k0, k1, q.y));
      RotatedXor(q.y, Mix(Tables(), k0, k1, q.x));
    }
  }

  lemma {:induction false} LeftRight(x: bv32, y: bv32)
    ensures DS.Left(DS.Join(x, y)) == x && DS.Right(DS.Join(x, y)) == y
  {
  }

  /** The block cipher is the standard, for every key and every block. */
  lemma {:induction false} CryptIsStandard(key: Block, b: Block)
    ensures Number(Crypt(Tables(), KeySchedule(key), b)) == DS.Encipher(Number(key), Number(b))
  {
    hide KeySchedule, Rounds, RotR, Tables, DS.Iterated, DS.IP, DS.InverseIP, DS.Join, DS.Left, DS.Right;
    hide InitialPermutation, FinalPermutation, GetWord, PutWord;
    var w := Pair(GetWord(b, 0), GetWord(b, 4));
    var p := InitialPermutation(w);
    InitialIsIP(w);
    LeftRight(RotR(p.x), RotR(p.y));
    RoundsAreIterations(key, 16, p);
    var q := Flip(Rounds(Tables(), KeySchedule(key), 16, p));
    FinalIsInverse(q);
    WordsOfBlock(FinalPermutation(q));
  }

  /** With the subkeys turned round it is the inverse of the standard. */
  lemma {:induction false} ReversedDeciphers(key: Block, b: Block)
    ensures DS.Encipher(Number(key), Number(Crypt(Tables(), Reversed(KeySchedule(key)), b))) == Number(b)
  {
    hide Crypt, Tables, KeySchedule, Reversed, Number, DS.Encipher;
    var sk := KeySchedule(key);
    BlockRoundTrip(Tables(), Reversed(sk), b);
    ReversedTwice(sk);
    CryptIsStandard(key, Crypt(Tables(), Reversed(sk), b));
  }

  lemma {:induction false} BlockOfPrefix(s: seq<bv8>, n: nat, k: nat)
    requires 8 * k + 8 <= n <= |s|
    ensures BlockAt(s[..n], k) == BlockAt(s, k)
  {
  }

  lemma {:induction false} BlockOfAll(sb: Boxes, sk: Schedule, s: seq<bv8>, k: nat)
    requires |s| % 8 == 0 && 8 * k + 8 <= |s|
    ensures BlockAt(CryptAll(sb, sk, s), k) == Crypt(sb, sk, BlockAt(s, k))
    decreases |s|
  {
    hide Crypt;
    var n := |s| - 8;
    var c := CryptAll(sb, sk, s);
    if 8 * k < n {
      hide BlockAt;
      BlockOfAll(sb, sk, s[..n], k);
      assert c[..n] == CryptAll(sb, sk, s[..n]);
      BlockOfPrefix(c, n, k);
      BlockOfPrefix(s, n, k);
    } else {
      assert c[n..] == Crypt(sb, sk, s[n..]) && s[n..] == BlockAt(s, k) && c[n..] == BlockAt(c, k);
    }
  }

  /** Every block of an enciphered text is the padded text's block, enciphered by the standard. */
  lemma {:induction false} EncodedIsStandard(key: Block, t: seq<bv8>, c: seq<bv8>, k: nat)
    requires c == Encoded(Tables(), KeySchedule(key), t) && 8 * k + 8 <= |c|
    ensures |c| == |Pad(t)| && Number(BlockAt(c, k)) == DS.Encipher(Number(key), Number(BlockAt(Pad(t), k)))
  {
    hide Crypt, CryptAll, Tables, KeySchedule, Pad, Number, BlockAt, DS.Encipher;
    BlockOfAll(Tables(), KeySchedule(key), Pad(t), k);
    CryptIsStandard(key, BlockAt(Pad(t), k));
  }

  // ----- a known value -----

  /** What a round mixes in under subkeys of zeros. */
  function ZeroMix(y: bv32): bv32
  {
    var u := RotR4(y);
    XorAll(Sb8(Low(y, 0) as nat), Sb6(Low(y, 8) as nat), Sb4(Low(y, 16) as nat), Sb2(Low(y, 24) as nat),
           Sb7(Low(u, 0) as nat), Sb5(Low(u, 8) as nat), Sb3(Low(u, 16) as nat), Sb1(Low(u, 24) as nat))
  }

  lemma {:induction false} Mixes(y: bv32, u: bv32, m: bv32,
      a: bv32, b: bv32, c: bv32, d: bv32, e: bv32, f: bv32, g: bv32, h: bv32)
    requires u == RotR4(y) && m == XorAll(a, b, c, d, e, f, g, h)
    requires Sb8(Low(y, 0) as nat) == a && Sb6(Low(y, 8) as nat) == b
    requires Sb4(Low(y, 16) as nat) == c && Sb2(Low(y, 24) as nat) == d
    requires Sb7(Low(u, 0) as nat) == e && Sb5(Low(u, 8) as nat) == f
    requires Sb3(Low(u, 16) as nat) == g && Sb1(Low(u, 24) as nat) == h
    ensures ZeroMix(y) == m
  {
    hide Low, RotR4, Sb1, Sb2, Sb3, Sb4, Sb5, Sb6, Sb7, Sb8, XorAll;
  }

  lemma {:induction false} ZeroMixes0()
    ensures ZeroMix(0x00000000) == 0xb1b1b779
    ensures ZeroMix(0xb1b1b779) == 0xce75da9f
    ensures ZeroMix(0xce75da9f) == 0x06456035
    ensures ZeroMix(0xb7f4d74c) == 0x72fe1e31
    ensures ZeroMix(0xbc8bc4ae) == 0xa1c6208d
    ensures ZeroMix(0x1632f7c1) == 0x4758d63b
    ensures ZeroMix(0xfbd31295) == 0x258ce179
    ensures ZeroMix(0x33be16b8) == 0xdb273574
  {
    hide ZeroMix;
    Mixes(0x00000000, 0x00000000, 0xb1b1b779,
          0x10001040, 0x20000010, 0x00802001, 0x80108020,
          0x00200000, 0x00000100, 0x00000208, 0x01010400);
    Mixes(0xb1b1b779, 0x9b1b1b77, 0xce75da9f,
          0x00041000, 0x00404010, 0x00000081, 0x80108000,
          0x04200802, 0x42000000, 0x08000208, 0x00010004);
    Mixes(0xce75da9f, 0xfce75da9, 0x06456035,
          0x00040000, 0x00404010, 0x00002001, 0x00000020,
          0x04000000, 0x02000000, 0x00000000, 0x00010004);
    Mixes(0xb7f4d74c, 0xcb7f4d74, 0x72fe1e31,
          0x10041000, 0x20400010, 0x00800001, 0x00100020,
          0x00200800, 0x42080000, 0x00020200, 0x00000400);
    Mixes(0xbc8bc4ae, 0xebc8bc4a, 0xa1c6208d,
          0x00040000, 0x20400000, 0x00802081, 0x80000000,
          0x00000000, 0x00000000, 0x00020008, 0x01000004);
    Mixes(0x1632f7c1, 0x11632f7c, 0x4758d63b,
          0x00001000, 0x00404010, 0x00000001, 0x00108020,
          0x04000002, 0x42080000, 0x00000208, 0x01000400);
    Mixes(0xfbd31295, 0x5fbd3129, 0x258ce179,
          0x00040040, 0x20004010, 0x00802001, 0x00008020,
          0x04000000, 0x00080100, 0x00000008, 0x01000000);
    Mixes(0x33be16b8, 0x833be16b, 0xdb273574,
          0x10041040, 0x00000010, 0x00002000, 0x80000020,
          0x00200000, 0x42000100, 0x08020000, 0x01010404);
  }

  lemma {:induction false} ZeroMixes1()
    ensures ZeroMix(0x20f427e1) == 0x238c0e19
    ensures ZeroMix(0x103218a1) == 0x6b568519
    ensures ZeroMix(0x4ba2a2f8) == 0xf7ed3a5c
    ensures ZeroMix(0xe7df22fd) == 0x66658cdd
    ensures ZeroMix(0x2dc72e25) == 0x53646469
    ensures ZeroMix(0xb4bb4694) == 0x26de7431
    ensures ZeroMix(0x0b195a14) == 0xc36f5d11
    ensures ZeroMix(0x77d41b85) == 0x335855ec
  {
    hide ZeroMix;
    Mixes(0x20f427e1, 0x120f427e, 0x238c0e19,
          0x00040000, 0x20000010, 0x00800001, 0x00000000,
          0x00000800, 0x02080000, 0x00000208, 0x01000400);
    Mixes(0x103218a1, 0x1103218a, 0x6b568519,
          0x00040000, 0x20400010, 0x00000001, 0x00108000,
          0x00000000, 0x42000100, 0x08020008, 0x01000400);
    Mixes(0x4ba2a2f8, 0x84ba2a2f, 0xf7ed3a5c,
          0x10041040, 0x20400010, 0x00802000, 0x80000000,
          0x04200800, 0x42080000, 0x00000208, 0x01010004);
    Mixes(0xe7df22fd, 0xde7df22f, 0x66658cdd,
          0x00040040, 0x20400010, 0x00000081, 0x00008000,
          0x04200800, 0x42000000, 0x00000008, 0x00010404);
    Mixes(0x2dc72e25, 0x52dc72e2, 0x53646469,
          0x10040040, 0x00404000, 0x00002001, 0x00000020,
          0x00200000, 0x42000000, 0x00000008, 0x01000400);
    Mixes(0xb4bb4694, 0x4b4bb469, 0x26de7431,
          0x00041000, 0x20404010, 0x00802001, 0x00100020,
          0x04000000, 0x02080000, 0x00020000, 0x00000400);
    Mixes(0x0b195a14, 0x40b195a1, 0xc36f5d11,
          0x00041000, 0x00404010, 0x00000001, 0x80000000,
          0x00200800, 0x42080100, 0x00020000, 0x01010400);
    Mixes(0x77d41b85, 0x577d41b8, 0x335855ec,
          0x10001040, 0x20404000, 0x00000080, 0x00100020,
          0x00000000, 0x02080100, 0x00000008, 0x01000404);
  }

  lemma {:induction false} MixIsZeroMix(y: bv32)
    ensures Mix(Tables(), 0, 0, y) == ZeroMix(y)
  {
    hide Low, RotR4, Tables, XorAll, Sb1, Sb2, Sb3, Sb4, Sb5, Sb6, Sb7, Sb8;
    NoXor(y);
    NoXor(RotR4(y));
    var u := RotR4(y);
    TableLook(7, Low(y, 0) as nat);
    TableLook(5, Low(y, 8) as nat);
    TableLook(3, Low(y, 16) as nat);
    TableLook(1, Low(y, 24) as nat);
    TableLook(6, Low(u, 0) as nat);
    TableLook(4, Low(u, 8) as nat);
    TableLook(2, Low(u, 16) as nat);
    TableLook(0, Low(u, 24) as nat);
  }

  lemma {:induction false} NoXor(a: bv32)
    ensures Xor(0, a) == a
  {
  }

  const WEAK_KEY: Block := [1, 1, 1, 1, 1, 1, 1, 1]

  lemma {:induction false} WeakHalves(n: nat)
    ensures KeyHalves(WEAK_KEY, n) == Pair(0, 0)
  {
    if n > 0 {
      WeakHalves(n - 1);
    }
  }

  lemma {:induction false} WeakSchedule(i: nat)
    requires i < 32
    ensures KeySchedule(WEAK_KEY)[i] == 0
  {
    hide KeyHalves;
    WeakHalves(i / 2 + 1);
  }

  lemma {:induction false} WeakRound(n: nat, p: Pair, x: bv32, y: bv32)
    requires n < 16 && p == Rounds(Tables(), KeySchedule(WEAK_KEY), n, Pair(0, 0))
    requires if n % 2 == 0 then x == Xor(p.x, ZeroMix(p.y)) && y == p.y else x == p.x && y == Xor(p.y, ZeroMix(p.x))
    ensures Rounds(Tables(), KeySchedule(WEAK_KEY), n + 1, Pair(0, 0)) == Pair(x, y)
  {
    hide Mix, Tables, KeySchedule, ZeroMix, Xor;
    WeakSchedule(2 * n);
    WeakSchedule(2 * n + 1);
    MixIsZeroMix(p.x);
    MixIsZeroMix(p.y);
  }

  lemma {:induction false} WeakRounds()
    ensures Rounds(Tables(), KeySchedule(WEAK_KEY), 16, Pair(0, 0)) == Pair(0x77d41b85, 0x38410ff8)
  {
    hide Rounds, Tables, KeySchedule, ZeroMix;
    RoundsNone(Tables(), KeySchedule(WEAK_KEY), Pair(0, 0));
    ZeroMixes0();
    ZeroMixes1();
    WeakRound(0, Pair(0x00000000, 0x00000000), 0xb1b1b779, 0x00000000);
    WeakRound(1, Pair(0xb1b1b779, 0x00000000), 0xb1b1b779, 0xce75da9f);
    WeakRound(2, Pair(0xb1b1b779, 0xce75da9f), 0xb7f4d74c, 0xce75da9f);
    WeakRound(3, Pair(0xb7f4d74c, 0xce75da9f), 0xb7f4d74c, 0xbc8bc4ae);
    WeakRound(4, Pair(0xb7f4d74c, 0xbc8bc4ae), 0x1632f7c1, 0xbc8bc4ae);
    WeakRound(5, Pair(0x1632f7c1, 0xbc8bc4ae), 0x1632f7c1, 0xfbd31295);
    WeakRound(6, Pair(0x1632f7c1, 0xfbd31295), 0x33be16b8, 0xfbd31295);
    WeakRound(7, Pair(0x33be16b8, 0xfbd31295), 0x33be16b8, 0x20f427e1);
    WeakRound(8, Pair(0x33be16b8, 0x20f427e1), 0x103218a1, 0x20f427e1);
    WeakRound(9, Pair(0x103218a1, 0x20f427e1), 0x103218a1, 0x4ba2a2f8);
    WeakRound(10, Pair(0x103218a1, 0x4ba2a2f8), 0xe7df22fd, 0x4ba2a2f8);
    WeakRound(11, Pair(0xe7df22fd, 0x4ba2a2f8), 0xe7df22fd, 0x2dc72e25);
    WeakRound(12, Pair(0xe7df22fd, 0x2dc72e25), 0xb4bb4694, 0x2dc72e25);
    WeakRound(13, Pair(0xb4bb4694, 0x2dc72e25), 0xb4bb4694, 0x0b195a14);
    WeakRound(14, Pair(0xb4bb4694, 0x0b195a14), 0x77d41b85, 0x0b195a14);
    WeakRound(15, Pair(0x77d41b85, 0x0b195a14), 0x77d41b85, 0x38410ff8);
  }

  /** The known value of eight zeros under the key of eight ones. */
  lemma {:induction false} KnownCipher()
    ensures Crypt(Tables(), KeySchedule(WEAK_KEY), Zeros(8)) == [0x8c, 0xa6, 0x4d, 0xe9, 0xc1, 0xb1, 0x23, 0xa7]
  {
    hide Rounds, Tables, KeySchedule;
    WeakRounds();
  }
}
