/** The serializer of lua-seri.c: values to bytes in a chain of blocks, and back. A table is what
    `lua_rawlen` and `lua_next` show of it. */
module Seri {

  import opened Basics

  const MAX_COOKIE := 32
  const MAX_DEPTH := 32
  const BLOCK_SIZE := 128

  /** Eight bytes taken as they are: a double or a pointer. */
  type Bits = b: seq<Byte> | |b| == 8 witness [0, 0, 0, 0, 0, 0, 0, 0]

  type Int64 = x: int | -0x8000_0000_0000_0000 <= x < 0x8000_0000_0000_0000

  datatype Value =
    | Nil
    | Boolean(b: bool)
    | Integer(i: Int64)
    | Real(bits: Bits)
    | Pointer(bits: Bits)
    | Str(s: seq<Byte>)
    | Table(items: seq<Value>, hash: seq<Pair>)
    | Other

  datatype Pair = Pair(key: Value, value: Value)

  // ----- numbers -----

  /** n in w bytes, the lowest first. */
  function Le(n: nat, w: nat): (s: seq<Byte>)
    ensures |s| == w
  {
    if w == 0 then [] else [n % 256] + Le(n / 256, w - 1)
  }

  function FromLe(s: seq<Byte>): nat
  {
    if s == [] then 0 else s[0] + 256 * FromLe(s[1..])
  }

  function Top(w: nat): nat
  {
    if w == 0 then 1 else 256 * Top(w - 1)
  }

  lemma {:induction false} LeRound(n: nat, w: nat)
    requires n < Top(w)
    ensures FromLe(Le(n, w)) == n
    decreases w
  {
    if w > 0 {
      LeRound(n / 256, w - 1);
      assert Le(n, w)[1..] == Le(n / 256, w - 1);
    }
  }

  lemma {:induction false} Tops()
    ensures Top(1) == 0x100 && Top(2) == 0x1_0000 && Top(4) == 0x1_0000_0000 && Top(8) == 0x1_0000_0000_0000_0000
  {
    assert Top(3) == 0x100_0000 && Top(5) == 0x100_0000_0000 && Top(6) == 0x1_0000_0000_0000;
  }

  /** A two's complement number of which `m` is one more than the largest unsigned one. */
  function Signed(n: nat, m: nat): int
  {
    if n < m / 2 then n else n - m
  }

  /** `COMBINE_TYPE` */
  function Combine(t: nat, v: nat): Byte
    requires t < 8 && v < 32
  {
    t + 8 * v
  }

  // ----- what packing writes -----

  /** The width `wb_integer` chooses: none for 0, then one, two, four or eight bytes. */
  function IntCookie(v: Int64): (c: nat)
    ensures c in {0, 1, 2, 4, 6}
  {
    if v == 0 then 0
    else if v < -0x8000_0000 || v >= 0x8000_0000 then 6
    else if v < 0 then 4
    else if v < 0x100 then 1
    else if v < 0x1_0000 then 2
    else 4
  }

  function Width(cookie: nat): nat
  {
    if cookie == 6 then 8 else cookie
  }

  /** The unsigned number that the bytes of a cast to w bytes hold. */
  function Unsigned(v: Int64, w: nat): nat
  {
    if w == 8 then v % 0x1_0000_0000_0000_0000
    else if w == 4 then v % 0x1_0000_0000
    else if w == 2 then v % 0x1_0000
    else v % 0x100
  }

  /** `wb_integer` */
  function EncInt(v: Int64): seq<Byte>
  {
    var c := IntCookie(v);
    [Combine(2, c)] + Le(Unsigned(v, Width(c)), Width(c))
  }

  /** `wb_string` */
  function EncStr(s: seq<Byte>): seq<Byte>
  {
    if |s| < MAX_COOKIE then [Combine(4, |s|)] + s
    else if |s| < 0x1_0000 then [Combine(5, 2)] + Le(|s|, 2) + s
    else [Combine(5, 4)] + Le(|s|, 4) + s
  }

  /** The head of `wb_table_array`. */
  function EncHead(n: nat): seq<Byte>
    requires n < 0x8000_0000
  {
    if n >= MAX_COOKIE - 1 then [Combine(6, MAX_COOKIE - 1)] + EncInt(n) else [Combine(6, n)]
  }

  /** The values that can be written: lengths that an `int` holds, pairs as a table can have them. */
  predicate Plain(v: Value)
  {
    match v
    case Str(s) => |s| < 0x8000_0000
    case Table(items, hash) =>
      && |items| < 0x8000_0000
      && (forall i | 0 <= i < |items| :: Plain(items[i]))
      && (forall i | 0 <= i < |hash| :: PlainPair(hash[i]))
    case Other => false
    case _ => true
  }

  function Enc(v: Value): (s: seq<Byte>)
    requires Plain(v)
    ensures s != []
  {
    match v
    case Nil => [0]
    case Boolean(b) => [Combine(1, if b then 1 else 0)]
    case Integer(i) => EncInt(i)
    case Real(bits) => [Combine(2, 8)] + bits
    case Pointer(bits) => [3] + bits
    case Str(s) => EncStr(s)
    case Table(items, hash) => EncHead(|items|) + EncAll(items) + EncPairs(hash) + [0]
  }

  function EncAll(vs: seq<Value>): seq<Byte>
    requires forall i | 0 <= i < |vs| :: Plain(vs[i])
  {
    if vs == [] then [] else Enc(vs[0]) + EncAll(vs[1..])
  }

  predicate PlainPair(p: Pair)
  {
    !p.key.Nil? && !p.value.Nil? && Plain(p.key) && Plain(p.value)
  }

  function EncPairs(ps: seq<Pair>): seq<Byte>
    requires forall i | 0 <= i < |ps| :: PlainPair(ps[i])
  {
    if ps == [] then [] else EncPair(ps[0]) + EncPairs(ps[1..])
  }

  function EncPair(p: Pair): seq<Byte>
    requires PlainPair(p)
  {
    Enc(p.key) + Enc(p.value)
  }

  // ----- what unpacking reads -----

  /** What is read, and the bytes after it. */
  datatype Read<T> = Got(value: T, rest: seq<Byte>) | Invalid

  /** `get_integer` */
  function DecInt(s: seq<Byte>, cookie: nat): (r: Read<Int64>)
    ensures r.Got? ==> |r.rest| <= |s|
  {
    if cookie !in {0, 1, 2, 4, 6} || |s| < Width(cookie) then Invalid
    else
      var w := Width(cookie);
      Ranges(s[..w]);
      Got(if w == 4 then Signed(FromLe(s[..w]), 0x1_0000_0000)
          else if w == 8 then Signed(FromLe(s[..w]), 0x1_0000_0000_0000_0000)
          else FromLe(s[..w]), s[w..])
  }

  lemma {:induction false} Ranges(s: seq<Byte>)
    ensures FromLe(s) < Top(|s|)
    ensures |s| == 1 ==> FromLe(s) < 0x100
    ensures |s| == 2 ==> FromLe(s) < 0x1_0000
    ensures |s| == 4 ==> FromLe(s) < 0x1_0000_0000
    ensures |s| == 8 ==> FromLe(s) < 0x1_0000_0000_0000_0000
    decreases |s|
  {
    Tops();
    if s != [] { Ranges(s[1..]); }
  }

  lemma {:induction false} IntRound(v: Int64, rest: seq<Byte>)
    ensures var s := EncInt(v) + rest;
            s[0] % 8 == 2 && s[0] / 8 == IntCookie(v) && DecInt(s[1..], IntCookie(v)) == Got(v, rest)
  {
    var c := IntCookie(v);
    var w := Width(c);
    var n, s := Unsigned(v, w), EncInt(v) + rest;
    Tops();
    if c > 0 { LeRound(n, w); }
    assert s[1..] == Le(n, w) + rest && s[1..][..w] == Le(n, w) && s[1..][w..] == rest;
    CastRound(v);
    hide Le, FromLe, Top, IntCookie, Unsigned;
    if c == 0 { assert Le(n, w) == []; LeNone(); }
  }

  lemma {:induction false} LeNone()
    ensures FromLe([]) == 0
  {
  }

  /** The chosen width holds the number. */
  lemma {:induction false} CastRound(v: Int64)
    ensures var c := IntCookie(v); var w := Width(c); var n := Unsigned(v, w);
            && (c == 0 ==> v == 0)
            && (w == 1 ==> n == v < 0x100)
            && (w == 2 ==> n == v < 0x1_0000)
            && (w == 4 ==> Signed(n, 0x1_0000_0000) == v && n < 0x1_0000_0000)
            && (w == 8 ==> Signed(n, 0x1_0000_0000_0000_0000) == v && n < 0x1_0000_0000_0000_0000)
  {
  }

  /** `push_value`, after the type byte; `unpack_one` when s begins with it. */
  function DecOne(s: seq<Byte>): (r: Read<Value>)
    ensures r.Got? ==> |r.rest| < |s|
    decreases |s|, 0
  {
    if s == [] then Invalid else DecValue(s[0] % 8, s[0] / 8, s[1..])
  }

  function DecValue(kind: nat, cookie: nat, t: seq<Byte>): (r: Read<Value>)
    ensures r.Got? ==> |r.rest| <= |t|
    decreases |t|, 4
  {
    if kind == 0 then Got(Nil, t)
    else if kind == 1 then Got(Boolean(cookie != 0), t)
    else if kind == 2 && cookie == 8 then DecBits(t, true)
    else if kind == 2 then (var r := DecInt(t, cookie); if r.Got? then Got(Integer(r.value), r.rest) else Invalid)
    else if kind == 3 then DecBits(t, false)
    else if kind == 4 then DecStr(t, cookie)
    else if kind == 5 then DecLong(t, cookie)
    else if kind == 6 then DecTable(t, cookie)
    else Invalid
  }

  function DecBits(t: seq<Byte>, isReal: bool): (r: Read<Value>)
    ensures r.Got? ==> |r.rest| <= |t|
  {
    if |t| < 8 then Invalid else Got(if isReal then Real(t[..8]) else Pointer(t[..8]), t[8..])
  }

  /** `get_buffer` */
  function DecStr(t: seq<Byte>, n: nat): (r: Read<Value>)
    ensures r.Got? ==> |r.rest| <= |t|
  {
    if |t| < n then Invalid else Got(Str(t[..n]), t[n..])
  }

  function DecLong(t: seq<Byte>, cookie: nat): (r: Read<Value>)
    ensures r.Got? ==> |r.rest| <= |t|
  {
    if cookie !in {2, 4} || |t| < cookie then Invalid else DecStr(t[cookie..], FromLe(t[..cookie]))
  }

  /** The cast to `int` of a length. */
  function AsInt(n: int): int
  {
    Signed(n % 0x1_0000_0000, 0x1_0000_0000)
  }

  /** `unpack_table` */
  function DecTable(t: seq<Byte>, cookie: nat): (r: Read<Value>)
    ensures r.Got? ==> |r.rest| <= |t|
    decreases |t|, 3
  {
    if cookie != MAX_COOKIE - 1 then DecBody(t, cookie)
    else if t == [] || t[0] % 8 != 2 || t[0] / 8 == 8 then Invalid
    else
      var n := DecInt(t[1..], t[0] / 8);
      if n.Invalid? then Invalid else DecBody(n.rest, AsInt(n.value))
  }

  function DecBody(t: seq<Byte>, n: int): (r: Read<Value>)
    ensures r.Got? ==> |r.rest| <= |t|
    decreases |t|, 2
  {
    var items := DecItems(t, if n < 0 then 0 else n);
    if items.Invalid? then Invalid
    else
      var pairs := DecPairs(items.rest);
      if pairs.Invalid? then Invalid else Got(Table(items.value, pairs.value), pairs.rest)
  }

  function DecItems(t: seq<Byte>, n: nat): (r: Read<seq<Value>>)
    ensures r.Got? ==> |r.rest| <= |t|
    decreases |t|, 1
  {
    if n == 0 then Got([], t)
    else
      var v := DecOne(t);
      if v.Invalid? then Invalid
      else
        var vs := DecItems(v.rest, n - 1);
        if vs.Invalid? then Invalid else Got([v.value] + vs.value, vs.rest)
  }

  /** Keys and values, up to a nil for a key. */
  function DecPairs(t: seq<Byte>): (r: Read<seq<Pair>>)
    ensures r.Got? ==> |r.rest| < |t|
    decreases |t|, 1
  {
    var k := DecOne(t);
    if k.Invalid? then Invalid
    else if k.value.Nil? then Got([], k.rest)
    else
      var v := DecOne(k.rest);
      if v.Invalid? then Invalid
      else
        var ps := DecPairs(v.rest);
        if ps.Invalid? then Invalid else Got([Pair(k.value, v.value)] + ps.value, ps.rest)
  }

  /** `luaseri_unpack`: values up to the end of the bytes. */
  function DecStream(s: seq<Byte>): Read<seq<Value>>
    decreases |s|
  {
    if s == [] then Got([], [])
    else
      var v := DecOne(s);
      if v.Invalid? then Invalid
      else
        var vs := DecStream(v.rest);
        if vs.Invalid? then Invalid else Got([v.value] + vs.value, [])
  }

  // ----- what is packed is unpacked -----

  lemma {:induction false} HeadRound(t: nat, c: nat, body: seq<Byte>, rest: seq<Byte>)
    requires t < 8 && c < 32
    ensures var s := [Combine(t, c)] + body + rest; s[0] % 8 == t && s[0] / 8 == c && s[1..] == body + rest
    ensures DecOne([Combine(t, c)] + body + rest) == DecValue(t, c, body + rest)
  {
    var s := [Combine(t, c)] + body + rest;
    assert s[0] == Combine(t, c) && s[1..] == body + rest;
    hide DecValue;
    assert s != [] && (s[0] % 8) as nat == t && (s[0] / 8) as nat == c;
  }

  lemma {:induction false} StrRound(v: seq<Byte>, rest: seq<Byte>)
    requires |v| < 0x8000_0000
    ensures DecOne(EncStr(v) + rest) == Got(Str(v), rest)
  {
    var n := |v|;
    Pieces(v, rest);
    if n < MAX_COOKIE {
      HeadRound(4, n, v, rest);
    } else {
      LongRound(v, if n < 0x1_0000 then 2 else 4, rest);
    }
  }

  lemma {:induction false} Pieces(v: seq<Byte>, rest: seq<Byte>)
    ensures (v + rest)[..|v|] == v && (v + rest)[|v|..] == rest
  {
  }

  lemma {:induction false} LongRound(v: seq<Byte>, w: nat, rest: seq<Byte>)
    requires |v| < (if w == 2 then 0x1_0000 else 0x1_0000_0000) && (w == 2 || w == 4)
    ensures DecOne([Combine(5, w)] + Le(|v|, w) + v + rest) == Got(Str(v), rest)
  {
    var n, l := |v|, Le(|v|, w);
    Tops();
    LeRound(n, w);
    Pieces(l, v + rest);
    Pieces(v, rest);
    HeadRound(5, w, l + v, rest);
    assert [Combine(5, w)] + l + v + rest == [Combine(5, w)] + (l + v) + rest;
    assert l + v + rest == l + (v + rest);
    hide DecOne, Le, FromLe, Top;
  }

  lemma {:induction false} NilRound(rest: seq<Byte>)
    ensures DecOne([0] + rest) == Got(Nil, rest)
  {
    assert [0] + rest == [Combine(0, 0)] + [] + rest && [] + rest == rest;
    HeadRound(0, 0, [], rest);
  }

  lemma {:induction false} OneRound(v: Value, rest: seq<Byte>)
    requires Plain(v)
    ensures DecOne(Enc(v) + rest) == Got(v, rest)
    decreases v
  {
    match v
    case Nil =>
      NilRound(rest);
    case Boolean(b) =>
      var c := if b then 1 else 0;
      assert Enc(v) + rest == [Combine(1, c)] + [] + rest && [] + rest == rest;
      HeadRound(1, c, [], rest);
    case Integer(i) =>
      IntRound(i, rest);
    case Real(bits) =>
      HeadRound(2, 8, bits, rest);
      assert (bits + rest)[..8] == bits && (bits + rest)[8..] == rest;
    case Pointer(bits) =>
      assert Enc(v) == [Combine(3, 0)] + bits;
      HeadRound(3, 0, bits, rest);
      assert (bits + rest)[..8] == bits && (bits + rest)[8..] == rest;
    case Str(s) =>
      StrRound(s, rest);
    case Table(items, hash) =>
      TableRound(items, hash, rest);
  }

  lemma {:induction false} TableRound(items: seq<Value>, hash: seq<Pair>, rest: seq<Byte>)
    requires Plain(Table(items, hash))
    ensures DecOne(Enc(Table(items, hash)) + rest) == Got(Table(items, hash), rest)
    decreases Table(items, hash), 0
  {
    var tail := EncPairs(hash) + [0] + rest;
    ItemsRound(items, tail);
    PairsRound(hash, rest);
    HeadRead(|items|, EncAll(items) + tail);
    TableBytes(EncHead(|items|), EncAll(items), EncPairs(hash), rest);
    hide DecOne, DecItems, DecPairs, EncHead, EncAll, EncPairs;
  }

  lemma {:induction false} TableBytes(h: seq<Byte>, a: seq<Byte>, p: seq<Byte>, rest: seq<Byte>)
    ensures h + a + p + [0] + rest == h + (a + (p + [0] + rest))
  {
  }

  /** The head of a table is read back, however the length was written. */
  lemma {:induction false} HeadRead(n: nat, body: seq<Byte>)
    requires n < 0x8000_0000
    ensures DecOne(EncHead(n) + body) == DecBody(body, n)
  {
    if n < MAX_COOKIE - 1 {
      assert EncHead(n) + body == [Combine(6, n)] + [] + body && [] + body == body;
      HeadRound(6, n, [], body);
    } else {
      HeadRound(6, MAX_COOKIE - 1, EncInt(n), body);
      IntRound(n, body);
      assert AsInt(n) == n;
      hide DecBody, DecInt, EncInt;
    }
  }

  lemma {:induction false} ItemsRound(vs: seq<Value>, rest: seq<Byte>)
    requires forall i | 0 <= i < |vs| :: Plain(vs[i])
    ensures DecItems(EncAll(vs) + rest, |vs|) == Got(vs, rest)
    decreases vs
  {
    if vs == [] {
      assert EncAll(vs) + rest == rest;
    } else {
      OneRound(vs[0], EncAll(vs[1..]) + rest);
      ItemsRound(vs[1..], rest);
      assert EncAll(vs) + rest == Enc(vs[0]) + (EncAll(vs[1..]) + rest);
      assert vs == [vs[0]] + vs[1..];
    }
  }

  lemma {:induction false} PairsRound(ps: seq<Pair>, rest: seq<Byte>)
    requires forall i | 0 <= i < |ps| :: PlainPair(ps[i])
    ensures DecPairs(EncPairs(ps) + [0] + rest) == Got(ps, rest)
    decreases ps
  {
    if ps == [] {
      NilRound(rest);
      assert EncPairs(ps) + [0] + rest == [0] + rest;
    } else {
      var p := ps[0];
      var more := EncPairs(ps[1..]) + [0] + rest;
      PairRound(p, more);
      PairsRound(ps[1..], rest);
      OnePair(Enc(p.key) + (Enc(p.value) + more), p, Enc(p.value) + more, more, ps[1..], rest);
      PairBytes(Enc(p.key), Enc(p.value), EncPairs(ps[1..]), rest);
      hide DecPairs, DecOne, Enc;
      assert ps == [p] + ps[1..];
    }
  }

  lemma {:induction false} PairBytes(k: seq<Byte>, v: seq<Byte>, ps: seq<Byte>, rest: seq<Byte>)
    ensures k + v + ps + [0] + rest == k + (v + (ps + [0] + rest))
  {
  }

  lemma {:induction false} OnePair(s: seq<Byte>, p: Pair, t: seq<Byte>, u: seq<Byte>, ps: seq<Pair>, rest: seq<Byte>)
    requires DecOne(s) == Got(p.key, t) && !p.key.Nil? && DecOne(t) == Got(p.value, u) && DecPairs(u) == Got(ps, rest)
    ensures DecPairs(s) == Got([p] + ps, rest)
  {
    hide DecOne;
  }

  lemma {:induction false} PairRound(p: Pair, rest: seq<Byte>)
    requires PlainPair(p)
    ensures DecOne(Enc(p.key) + (Enc(p.value) + rest)) == Got(p.key, Enc(p.value) + rest)
    ensures DecOne(Enc(p.value) + rest) == Got(p.value, rest)
    decreases p
  {
    OneRound(p.key, Enc(p.value) + rest);
    OneRound(p.value, rest);
  }

  /** Unpacking a packed list gives the list. */
  lemma {:induction false} ListRound(vs: seq<Value>)
    requires forall i | 0 <= i < |vs| :: Plain(vs[i])
    ensures DecStream(EncAll(vs)) == Got(vs, [])
    decreases |vs|
  {
    if vs != [] {
      OneRound(vs[0], EncAll(vs[1..]));
      ListRound(vs[1..]);
      assert vs == [vs[0]] + vs[1..];
    }
  }
}
