/** The code of lua-seri.c around its bytes: the chain of blocks that is written, the flat buffer
    that is read, and the recursive walks that pack and unpack. */
module SeriBlocks {

  import opened Basics
  import opened Seri

  // ----- writing -----

  class WriteBlock {
    /** The chain from `head` to `current`. */
    var blocks: seq<array<Byte>>
    var len: nat
    var ptr: nat
    ghost var pushed: seq<Byte>
    ghost var repr: set<object>

    /** The chain holds exactly what was pushed, in pieces of one block. */
    ghost predicate Valid()
      reads this, repr
    {
      && (forall i | 0 <= i < |blocks| :: blocks[i] in repr)
      && blocks != [] && ptr <= BLOCK_SIZE
      && (forall i | 0 <= i < |blocks| :: blocks[i].Length == BLOCK_SIZE)
      && (forall i, j | 0 <= i < j < |blocks| :: blocks[i] != blocks[j])
      && len == BLOCK_SIZE * (|blocks| - 1) + ptr == |pushed|
      && forall k | 0 <= k < len :: blocks[k / BLOCK_SIZE][k % BLOCK_SIZE] == pushed[k]
    }

    /** `wb_init` */
    constructor ()
      ensures Valid() && pushed == [] && fresh(repr)
    {
      var b := new Byte[BLOCK_SIZE](_ => 0);
      blocks, len, ptr, pushed, repr := [b], 0, 0, [], {b};
    }

    /** `memcpy` of bytes that fit into the current block. */
    method Copy(buffer: seq<Byte>)
      requires Valid() && ptr + |buffer| <= BLOCK_SIZE
      modifies `len, `ptr, `pushed, blocks[|blocks| - 1]
      ensures Valid() && repr == old(repr) && pushed == old(pushed) + buffer && ptr == old(ptr) + |buffer|
    {
      var current, n := blocks[|blocks| - 1], |blocks| - 1;
      forall j | 0 <= j < |buffer| {
        current[ptr + j] := buffer[j];
      }
      ghost var len0 := len;
      ptr := ptr + |buffer|;
      len := len + |buffer|;
      pushed := pushed + buffer;
      forall k | 0 <= k < len ensures blocks[k / BLOCK_SIZE][k % BLOCK_SIZE] == pushed[k] {
        assert 0 <= k / BLOCK_SIZE <= n;
        if k / BLOCK_SIZE == n { assert k % BLOCK_SIZE == k - BLOCK_SIZE * n; }
      }
    }

    /** `blk_alloc` of the next block, when the current one is full. */
    method NextBlock()
      requires Valid() && ptr == BLOCK_SIZE
      modifies `blocks, `ptr, `repr
      ensures Valid() && pushed == old(pushed) && ptr == 0 && fresh(repr - old(repr))
    {
      var b := new Byte[BLOCK_SIZE](_ => 0);
      blocks := blocks + [b];
      repr := repr + {b};
      ptr := 0;
    }

    /** `wb_push`: bytes into the current block and as many more as are needed. */
    method Push(buffer0: seq<Byte>)
      requires Valid()
      modifies this, repr
      ensures Valid() && pushed == old(pushed) + buffer0 && fresh(repr - old(repr))
    {
      ghost var before := pushed;
      var buffer := buffer0;
      if ptr == BLOCK_SIZE {
        NextBlock();
      }
      while ptr > BLOCK_SIZE - |buffer|
        invariant Valid() && pushed + buffer == before + buffer0
        invariant fresh(repr - old(repr))
        invariant ptr < BLOCK_SIZE
        decreases |buffer|
      {
        var copy := BLOCK_SIZE - ptr;
        assert buffer == buffer[..copy] + buffer[copy..];
        ghost var p := pushed;
        Copy(buffer[..copy]);
        assert p + buffer[..copy] + buffer[copy..] == p + buffer;
        buffer := buffer[copy..];
        NextBlock();
      }
      Copy(buffer);
    }

    /** `seri`: the blocks, copied into one buffer. */
    method Flatten() returns (buffer: array<Byte>)
      requires Valid()
      ensures fresh(buffer) && buffer[..] == pushed
    {
      buffer := new Byte[len](_ => 0);
      var left, b := len, 0;
      while left > 0
        invariant 0 <= left <= len && buffer.Length == len && fresh(buffer) && Valid() && pushed == old(pushed)
        invariant left > 0 ==> len - left == BLOCK_SIZE * b && b < |blocks|
        invariant buffer[..len - left] == pushed[..len - left]
      {
        var n := if left >= BLOCK_SIZE then BLOCK_SIZE else left;
        var at := len - left;
        forall j | 0 <= j < n {
          buffer[at + j] := blocks[b][j];
        }
        forall k | at <= k < at + n ensures buffer[k] == pushed[k] {
          assert k / BLOCK_SIZE == b && k % BLOCK_SIZE == k - at;
        }
        left := left - n;
        b := b + 1;
      }
      assert buffer[..len] == buffer[..] && pushed[..len] == pushed;
    }
  }

  // ----- packing -----

  /** What Lua hands over: lengths that an `int` holds, and pairs without nil. */
  predicate Shape(v: Value)
  {
    match v
    case Str(s) => |s| < 0x8000_0000
    case Table(items, hash) =>
      && |items| < 0x8000_0000
      && (forall i | 0 <= i < |items| :: Shape(items[i]))
      && (forall i | 0 <= i < |hash| :: ShapePair(hash[i]))
    case _ => true
  }

  predicate ShapePair(p: Pair)
  {
    !p.key.Nil? && !p.value.Nil? && Shape(p.key) && Shape(p.value)
  }

  /** The values that can be packed: supported types, not nested too deep. */
  predicate Fits(v: Value, depth: nat)
  {
    depth <= MAX_DEPTH &&
    match v
    case Other => false
    case Table(items, hash) =>
      && (forall i | 0 <= i < |items| :: Fits(items[i], depth + 1))
      && (forall i | 0 <= i < |hash| :: FitsPair(hash[i], depth + 1))
    case _ => true
  }

  predicate FitsPair(p: Pair, depth: nat)
  {
    Fits(p.key, depth) && Fits(p.value, depth)
  }

  lemma {:induction false} FitsPlain(v: Value, depth: nat)
    requires Shape(v) && Fits(v, depth)
    ensures Plain(v)
    decreases v
  {
    if v.Table? {
      forall i | 0 <= i < |v.items| ensures Plain(v.items[i]) { FitsPlain(v.items[i], depth + 1); }
      forall i | 0 <= i < |v.hash| ensures PlainPair(v.hash[i]) {
        assert ShapePair(v.hash[i]) && FitsPair(v.hash[i], depth + 1);
        PairPlain(v.hash[i], depth + 1);
      }
    }
  }

  lemma {:induction false} PairPlain(p: Pair, depth: nat)
    requires ShapePair(p) && FitsPair(p, depth)
    ensures PlainPair(p)
    decreases p
  {
    FitsPlain(p.key, depth);
    FitsPlain(p.value, depth);
  }

  lemma {:induction false} AllSnoc(vs: seq<Value>, v: Value)
    requires (forall i | 0 <= i < |vs| :: Plain(vs[i])) && Plain(v)
    ensures EncAll(vs + [v]) == EncAll(vs) + Enc(v)
    decreases |vs|
  {
    if vs == [] {
      assert vs + [v] == [v] && [v][1..] == [];
    } else {
      AllSnoc(vs[1..], v);
      assert (vs + [v])[1..] == vs[1..] + [v];
    }
  }

  lemma {:induction false} PairsSnoc(ps: seq<Pair>, p: Pair)
    requires (forall i | 0 <= i < |ps| :: PlainPair(ps[i])) && PlainPair(p)
    ensures EncPairs(ps + [p]) == EncPairs(ps) + (Enc(p.key) + Enc(p.value))
    decreases |ps|
  {
    if ps == [] {
      assert ps + [p] == [p] && [p][1..] == [];
    } else {
      PairsSnoc(ps[1..], p);
      assert (ps + [p])[1..] == ps[1..] + [p];
    }
  }

  /** The small writers: the type byte first, then the value. */
  method PackInteger(wb: WriteBlock, v: Int64)
    requires wb.Valid()
    modifies wb, wb.repr
    ensures wb.Valid() && wb.pushed == old(wb.pushed) + EncInt(v)
    ensures fresh(wb.repr - old(wb.repr))
  {
    ghost var c := IntCookie(v);
    ghost var n, w := Unsigned(v, Width(c)), Width(c);
    assert v == 0 ==> Le(n, w) == [];
    hide Le;
    Chain(wb.pushed, [Combine(2, c)], Le(n, w));
    assert wb.pushed + [Combine(2, c)] + [] == wb.pushed + [Combine(2, c)];
    if v == 0 {
      wb.Push([Combine(2, 0)]);
    } else if v < -0x8000_0000 || v >= 0x8000_0000 {
      wb.Push([Combine(2, 6)]);
      wb.Push(Le(v % 0x1_0000_0000_0000_0000, 8));
    } else if v < 0 {
      wb.Push([Combine(2, 4)]);
      wb.Push(Le(v % 0x1_0000_0000, 4));
    } else if v < 0x100 {
      wb.Push([Combine(2, 1)]);
      wb.Push(Le(v % 0x100, 1));
    } else if v < 0x1_0000 {
      wb.Push([Combine(2, 2)]);
      wb.Push(Le(v % 0x1_0000, 2));
    } else {
      wb.Push([Combine(2, 4)]);
      wb.Push(Le(v % 0x1_0000_0000, 4));
    }
  }

  method PackString(wb: WriteBlock, s: seq<Byte>)
    requires wb.Valid() && |s| < 0x8000_0000
    modifies wb, wb.repr
    ensures wb.Valid() && wb.pushed == old(wb.pushed) + EncStr(s)
    ensures fresh(wb.repr - old(wb.repr))
  {
    ghost var p := wb.pushed;
    if |s| < MAX_COOKIE {
      wb.Push([Combine(4, |s|)]);
      if |s| > 0 {
        wb.Push(s);
      }
      Chain(p, [Combine(4, |s|)], s);
      assert |s| == 0 ==> p + [Combine(4, |s|)] + s == p + [Combine(4, |s|)];
    } else {
      ghost var w := if |s| < 0x1_0000 then 2 else 4;
      if |s| < 0x1_0000 {
        wb.Push([Combine(5, 2)]);
        wb.Push(Le(|s|, 2));
      } else {
        wb.Push([Combine(5, 4)]);
        wb.Push(Le(|s|, 4));
      }
      wb.Push(s);
      Chain(p, [Combine(5, w)], Le(|s|, w));
      Chain(p, [Combine(5, w)] + Le(|s|, w), s);
      hide Le, Combine;
    }
  }

  lemma {:induction false} Chain(p: seq<Byte>, a: seq<Byte>, b: seq<Byte>)
    ensures p + a + b == p + (a + b)
  {
  }

  /** `pack_one`: false when the value is not supported or nested too deep. */
  method PackOne(wb: WriteBlock, v: Value, depth: nat) returns (ok: bool)
    requires wb.Valid() && Shape(v)
    modifies wb, wb.repr
    ensures wb.Valid() && fresh(wb.repr - old(wb.repr))
    ensures ok == Fits(v, depth)
    ensures ok ==> Plain(v) && wb.pushed == old(wb.pushed) + Enc(v)
    decreases v, 2
  {
    hide Le, EncInt, EncStr;
    if depth > MAX_DEPTH {
      return false;
    }
    ok := true;
    match v {
      case Nil =>
        wb.Push([0]);
      case Boolean(b) =>
        wb.Push([Combine(1, if b then 1 else 0)]);
      case Integer(i) =>
        PackInteger(wb, i);
      case Real(bits) =>
        Chain(wb.pushed, [Combine(2, 8)], bits);
        wb.Push([Combine(2, 8)]);
        wb.Push(bits);
      case Pointer(bits) =>
        Chain(wb.pushed, [3], bits);
        wb.Push([3]);
        wb.Push(bits);
      case Str(s) =>
        PackString(wb, s);
      case Table(items, hash) =>
        ok := PackTable(wb, v, depth + 1);
      case Other =>
        ok := false;
    }
  }

  /** `wb_table` without metamethods: `wb_table_array` and `wb_table_hash`. */
  method PackTable(wb: WriteBlock, v: Value, depth: nat) returns (ok: bool)
    requires wb.Valid() && v.Table? && Shape(v) && 0 < depth <= MAX_DEPTH + 1
    modifies wb, wb.repr
    ensures wb.Valid() && fresh(wb.repr - old(wb.repr))
    ensures ok == Fits(v, depth - 1)
    ensures ok ==> Plain(v) && wb.pushed == old(wb.pushed) + Enc(v)
    decreases v, 1
  {
    hide Le, EncInt, Enc, EncAll, EncPairs;
    ghost var p := wb.pushed;
    var n := |v.items|;
    if n >= MAX_COOKIE - 1 {
      Chain(p, [Combine(6, MAX_COOKIE - 1)], EncInt(n));
      wb.Push([Combine(6, MAX_COOKIE - 1)]);
      PackInteger(wb, n);
    } else {
      wb.Push([Combine(6, n)]);
    }
    ok := PackItems(wb, v, depth);
    if !ok {
      return;
    }
    ok := PackHash(wb, v, depth);
    if !ok {
      return;
    }
    FitsPlain(v, depth - 1);
    wb.Push([0]);
    TableEnc(p, v);
  }

  lemma {:induction false} TableEnc(p: seq<Byte>, v: Value)
    requires v.Table? && Plain(v)
    ensures p + EncHead(|v.items|) + EncAll(v.items) + EncPairs(v.hash) + [0] == p + Enc(v)
  {
    var h, a, b := EncHead(|v.items|), EncAll(v.items), EncPairs(v.hash);
    assert Enc(v) == h + a + b + [0];
    hide Enc, EncAll, EncPairs, EncHead;
    assert p + h + a + b + [0] == p + (h + a + b + [0]);
  }

  lemma {:induction false} AllNone()
    ensures EncAll([]) == []
  {
  }

  lemma {:induction false} PairsNone()
    ensures EncPairs([]) == []
  {
  }

  method PackItems(wb: WriteBlock, v: Value, depth: nat) returns (ok: bool)
    requires wb.Valid() && v.Table? && Shape(v)
    modifies wb, wb.repr
    ensures wb.Valid() && fresh(wb.repr - old(wb.repr))
    ensures ok == forall i | 0 <= i < |v.items| :: Fits(v.items[i], depth)
    ensures ok ==> (forall i | 0 <= i < |v.items| :: Plain(v.items[i])) && wb.pushed == old(wb.pushed) + EncAll(v.items)
    decreases v, 0
  {
    hide Fits, Plain, Enc, EncAll;
    var i := 0;
    AllNone();
    assert v.items[..0] == [] && wb.pushed == wb.pushed + [];
    while i < |v.items|
      invariant 0 <= i <= |v.items| && wb.Valid() && fresh(wb.repr - old(wb.repr))
      invariant forall j | 0 <= j < i :: Fits(v.items[j], depth) && Plain(v.items[j])
      invariant wb.pushed == old(wb.pushed) + EncAll(v.items[..i])
    {
      ok := PackOne(wb, v.items[i], depth);
      if !ok {
        return;
      }
      AllSnoc(v.items[..i], v.items[i]);
      assert v.items[..i + 1] == v.items[..i] + [v.items[i]];
      Chain(old(wb.pushed), EncAll(v.items[..i]), Enc(v.items[i]));
      i := i + 1;
    }
    assert v.items[..i] == v.items;
    ok := true;
  }

  method PackHash(wb: WriteBlock, v: Value, depth: nat) returns (ok: bool)
    requires wb.Valid() && v.Table? && Shape(v)
    modifies wb, wb.repr
    ensures wb.Valid() && fresh(wb.repr - old(wb.repr))
    ensures ok == forall i | 0 <= i < |v.hash| :: FitsPair(v.hash[i], depth)
    ensures ok ==> forall i | 0 <= i < |v.hash| :: PlainPair(v.hash[i])
    ensures ok ==> wb.pushed == old(wb.pushed) + EncPairs(v.hash)
    decreases v, 0
  {
    hide Fits, Plain, Enc, EncPairs;
    var i := 0;
    PairsNone();
    assert v.hash[..0] == [] && wb.pushed == wb.pushed + [];
    while i < |v.hash|
      invariant 0 <= i <= |v.hash| && wb.Valid() && fresh(wb.repr - old(wb.repr))
      invariant forall j | 0 <= j < i :: FitsPair(v.hash[j], depth) && PlainPair(v.hash[j])
      invariant wb.pushed == old(wb.pushed) + EncPairs(v.hash[..i])
    {
      var p := v.hash[i];
      assert p < v && ShapePair(p);
      ghost var before := wb.pushed;
      ok := PackOne(wb, p.key, depth);
      if !ok {
        return;
      }
      ok := PackOne(wb, p.value, depth);
      if !ok {
        return;
      }
      PairsSnoc(v.hash[..i], p);
      assert v.hash[..i + 1] == v.hash[..i] + [p];
      Chain(before, Enc(p.key), Enc(p.value));
      Chain(old(wb.pushed), EncPairs(v.hash[..i]), Enc(p.key) + Enc(p.value));
      i := i + 1;
    }
    assert v.hash[..i] == v.hash;
    ok := true;
  }

  /** `luaseri_pack`: the bytes of a list of values. */
  method Pack(vs: seq<Value>) returns (r: Result<seq<Byte>>)
    requires forall i | 0 <= i < |vs| :: Shape(vs[i])
    ensures r.Ok? == forall i | 0 <= i < |vs| :: Fits(vs[i], 0)
    ensures r.Ok? ==> (forall i | 0 <= i < |vs| :: Plain(vs[i])) && r.value == EncAll(vs)
  {
    var wb := new WriteBlock();
    var i := 0;
    while i < |vs|
      invariant 0 <= i <= |vs| && wb.Valid() && fresh(wb) && fresh(wb.repr)
      invariant forall j | 0 <= j < i :: Fits(vs[j], 0) && Plain(vs[j])
      invariant wb.pushed == EncAll(vs[..i])
    {
      var ok := PackOne(wb, vs[i], 0);
      if !ok {
        return Err;
      }
      AllSnoc(vs[..i], vs[i]);
      assert vs[..i + 1] == vs[..i] + [vs[i]];
      i := i + 1;
    }
    assert vs[..i] == vs;
    var buffer := wb.Flatten();
    r := Ok(buffer[..]);
  }

  // ----- unpacking -----

  class ReadBlock {
    const buffer: seq<Byte>
    var len: nat
    var ptr: nat

    ghost predicate Valid()
      reads this
    {
      ptr + len == |buffer|
    }

    /** The bytes not yet read. */
    function Rest(): (s: seq<Byte>)
      requires Valid()
      reads this
      ensures |s| == len
    {
      buffer[ptr..]
    }

    /** `rball_init` */
    constructor (buffer: seq<Byte>)
      ensures Valid() && Rest() == buffer
    {
      this.buffer := buffer;
      len, ptr := |buffer|, 0;
    }

    /** `rb_read` */
    method Take(sz: nat) returns (r: Option<seq<Byte>>)
      requires Valid()
      modifies this
      ensures Valid()
      ensures r.Some? <==> old(len) >= sz
      ensures r.Some? ==> r.value == old(Rest())[..sz] && Rest() == old(Rest())[sz..]
      ensures r.None? ==> Rest() == old(Rest())
    {
      if len < sz {
        return None;
      }
      r := Some(buffer[ptr..ptr + sz]);
      ptr, len := ptr + sz, len - sz;
    }
  }

  /** A method's result against what the bytes say: an error is raised exactly when they are invalid. */
  ghost predicate Means<T>(r: Option<T>, rest: seq<Byte>, spec: Read<T>)
  {
    if r.Some? then spec == Got(r.value, rest) else spec == Invalid
  }

  /** `get_integer` */
  method GetInteger(rb: ReadBlock, cookie: nat) returns (r: Option<Int64>)
    requires rb.Valid()
    modifies rb
    ensures rb.Valid() && rb.len <= old(rb.len) && Means(r, rb.Rest(), DecInt(old(rb.Rest()), cookie))
  {
    if cookie == 0 {
      assert FromLe(rb.Rest()[..0]) == 0;
      return Some(0);
    } else if cookie in {1, 2, 4, 6} {
      var w := Width(cookie);
      var p := rb.Take(w);
      if p.None? {
        return None;
      }
      Ranges(p.value);
      var n := FromLe(p.value);
      r := Some(if w == 4 then Signed(n, 0x1_0000_0000)
                else if w == 8 then Signed(n, 0x1_0000_0000_0000_0000)
                else n);
    } else {
      r := None;
    }
  }

  /** `get_real`, `get_pointer` */
  method GetBits(rb: ReadBlock, isReal: bool) returns (r: Option<Value>)
    requires rb.Valid()
    modifies rb
    ensures rb.Valid() && rb.len <= old(rb.len) && Means(r, rb.Rest(), DecBits(old(rb.Rest()), isReal))
  {
    var p := rb.Take(8);
    if p.None? {
      return None;
    }
    r := Some(if isReal then Real(p.value) else Pointer(p.value));
  }

  /** `get_buffer` */
  method GetBuffer(rb: ReadBlock, n: nat) returns (r: Option<Value>)
    requires rb.Valid()
    modifies rb
    ensures rb.Valid() && rb.len <= old(rb.len) && Means(r, rb.Rest(), DecStr(old(rb.Rest()), n))
  {
    var p := rb.Take(n);
    if p.None? {
      return None;
    }
    r := Some(Str(p.value));
  }

  method GetLong(rb: ReadBlock, cookie: nat) returns (r: Option<Value>)
    requires rb.Valid()
    modifies rb
    ensures rb.Valid() && rb.len <= old(rb.len) && Means(r, rb.Rest(), DecLong(old(rb.Rest()), cookie))
  {
    if cookie != 2 && cookie != 4 {
      return None;
    }
    var plen := rb.Take(cookie);
    if plen.None? {
      return None;
    }
    r := GetBuffer(rb, FromLe(plen.value));
  }

  /** `unpack_one` */
  method UnpackOne(rb: ReadBlock) returns (r: Option<Value>)
    requires rb.Valid()
    modifies rb
    ensures rb.Valid() && rb.len <= old(rb.len) && (r.Some? ==> rb.len < old(rb.len))
    ensures Means(r, rb.Rest(), DecOne(old(rb.Rest())))
    decreases rb.len, 0
  {
    hide DecValue;
    var t := rb.Take(1);
    if t.None? {
      return None;
    }
    var kind := t.value[0];
    r := PushValue(rb, kind % 8, kind / 8);
  }

  /** `push_value` */
  method PushValue(rb: ReadBlock, kind: nat, cookie: nat) returns (r: Option<Value>)
    requires rb.Valid()
    modifies rb
    ensures rb.Valid() && rb.len <= old(rb.len) && Means(r, rb.Rest(), DecValue(kind, cookie, old(rb.Rest())))
    decreases rb.len, 4
  {
    hide DecInt, DecBits, DecStr, DecLong, DecTable;
    if kind == 0 {
      r := Some(Nil);
    } else if kind == 1 {
      r := Some(Boolean(cookie != 0));
    } else if kind == 2 && cookie == 8 {
      r := GetBits(rb, true);
    } else if kind == 2 {
      var n := GetInteger(rb, cookie);
      r := if n.Some? then Some(Integer(n.value)) else None;
    } else if kind == 3 {
      r := GetBits(rb, false);
    } else if kind == 4 {
      r := GetBuffer(rb, cookie);
    } else if kind == 5 {
      r := GetLong(rb, cookie);
    } else if kind == 6 {
      r := UnpackTable(rb, cookie);
    } else {
      r := None;
    }
  }

  /** `unpack_table` */
  method UnpackTable(rb: ReadBlock, cookie: nat) returns (r: Option<Value>)
    requires rb.Valid()
    modifies rb
    ensures rb.Valid() && rb.len <= old(rb.len) && Means(r, rb.Rest(), DecTable(old(rb.Rest()), cookie))
    decreases rb.len, 3
  {
    hide DecItems, DecPairs, DecInt;
    var arraySize: int := cookie;
    if arraySize == MAX_COOKIE - 1 {
      var t := rb.Take(1);
      if t.None? {
        return None;
      }
      var kind := t.value[0];
      if kind % 8 != 2 || kind / 8 == 8 {
        return None;
      }
      var n := GetInteger(rb, kind / 8);
      if n.None? {
        return None;
      }
      arraySize := AsInt(n.value);
    }
    var items := UnpackItems(rb, if arraySize < 0 then 0 else arraySize);
    if items.None? {
      return None;
    }
    var pairs := UnpackPairs(rb);
    if pairs.None? {
      return None;
    }
    r := Some(Table(items.value, pairs.value));
  }

  /** The loop over the array part. */
  method UnpackItems(rb: ReadBlock, n: nat) returns (r: Option<seq<Value>>)
    requires rb.Valid()
    modifies rb
    ensures rb.Valid() && rb.len <= old(rb.len) && Means(r, rb.Rest(), DecItems(old(rb.Rest()), n))
    decreases rb.len, 1
  {
    hide DecOne;
    ghost var t := rb.Rest();
    var items := [];
    var i := 0;
    ItemsFrom(items, t, n);
    while i < n
      invariant 0 <= i <= n && rb.Valid() && rb.len <= old(rb.len)
      invariant DecItems(t, n) == After(items, DecItems(rb.Rest(), n - i))
    {
      var v := UnpackOne(rb);
      if v.None? {
        return None;
      }
      if DecItems(rb.Rest(), n - i - 1).Got? {
        AfterMore(items, v.value, DecItems(rb.Rest(), n - i - 1));
      }
      items := items + [v.value];
      i := i + 1;
    }
    assert items + [] == items;
    r := Some(items);
  }

  /** What was read, before what is read next. */
  ghost function After<T>(done: seq<T>, r: Read<seq<T>>): Read<seq<T>>
  {
    if r.Invalid? then Invalid else Got(done + r.value, r.rest)
  }

  lemma {:induction false} ItemsFrom(items: seq<Value>, t: seq<Byte>, n: nat)
    requires items == []
    ensures DecItems(t, n) == After(items, DecItems(t, n))
  {
    if DecItems(t, n).Got? { assert items + DecItems(t, n).value == DecItems(t, n).value; }
  }

  lemma {:induction false} AfterMore<T>(done: seq<T>, v: T, r: Read<seq<T>>)
    requires r.Got?
    ensures done + ([v] + r.value) == done + [v] + r.value
  {
  }

  /** The loop over the hash part. */
  method UnpackPairs(rb: ReadBlock) returns (r: Option<seq<Pair>>)
    requires rb.Valid()
    modifies rb
    ensures rb.Valid() && rb.len <= old(rb.len) && Means(r, rb.Rest(), DecPairs(old(rb.Rest())))
    decreases rb.len, 1
  {
    hide DecOne;
    ghost var t := rb.Rest();
    var pairs := [];
    if DecPairs(t).Got? { assert pairs + DecPairs(t).value == DecPairs(t).value; }
    while true
      invariant rb.Valid() && rb.len <= old(rb.len)
      invariant DecPairs(t) == After(pairs, DecPairs(rb.Rest()))
      decreases rb.len
    {
      var k := UnpackOne(rb);
      if k.None? {
        return None;
      }
      if k.value.Nil? {
        assert pairs + [] == pairs;
        return Some(pairs);
      }
      var v := UnpackOne(rb);
      if v.None? {
        return None;
      }
      if DecPairs(rb.Rest()).Got? { AfterMore(pairs, Pair(k.value, v.value), DecPairs(rb.Rest())); }
      pairs := pairs + [Pair(k.value, v.value)];
    }
  }

  /** `luaseri_unpack` */
  method Unpack(bytes: seq<Byte>) returns (r: Result<seq<Value>>)
    ensures r == if DecStream(bytes).Got? then Ok(DecStream(bytes).value) else Err
  {
    hide DecValue;
    var rb := new ReadBlock(bytes);
    var vs := [];
    StreamFrom(vs, bytes);
    while true
      invariant rb.Valid() && DecStream(bytes) == After(vs, DecStream(rb.Rest()))
      decreases rb.len
    {
      var t := rb.Take(1);
      if t.None? {
        assert rb.Rest() == [] && vs + [] == vs;
        return Ok(vs);
      }
      var kind := t.value[0];
      var v := PushValue(rb, kind % 8, kind / 8);
      if v.None? {
        return Err;
      }
      if DecStream(rb.Rest()).Got? { AfterMore(vs, v.value, DecStream(rb.Rest())); }
      vs := vs + [v.value];
    }
  }

  lemma {:induction false} StreamFrom(vs: seq<Value>, s: seq<Byte>)
    requires vs == []
    ensures DecStream(s) == After(vs, DecStream(s))
    ensures DecStream(s).Got? ==> DecStream(s).rest == []
  {
    if DecStream(s).Got? { assert vs + DecStream(s).value == DecStream(s).value; }
  }

  /** A list of values that can be packed comes back the same; the others are refused. */
  method PackAndUnpack(vs: seq<Value>) returns (r: Result<seq<Value>>)
    requires forall i | 0 <= i < |vs| :: Shape(vs[i])
    ensures r == if forall i | 0 <= i < |vs| :: Fits(vs[i], 0) then Ok(vs) else Err
  {
    var p := Pack(vs);
    if p.Err? {
      return Err;
    }
    ListRound(vs);
    r := Unpack(p.value);
  }
}
