/** The frozen table of lua-sharedata.c: an array part, and a hash part of exactly as many slots as
    keys, filled by two passes over the source table. Strings stand for themselves here; the original
    keeps their index in a string table. */
module ShareData {

  import opened Basics

  type Int32 = x: int | -0x8000_0000 <= x < 0x8000_0000

  datatype Key = Int(k: Int32) | Str(s: seq<Byte>)

  datatype Entry<V> = Entry(key: Key, value: V)

  datatype Node<V> = Node(value: Option<V>, key: Key, next: int, keyhash: nat, nocolliding: bool)

  // ----- hashing -----

  /** `calchash` */
  function CalcHash(s: seq<Byte>): bv32
  {
    HashFrom(s, |s|, (|s| / 32) + 1, (|s| % 0x1_0000_0000) as bv32)
  }

  function HashFrom(s: seq<Byte>, l1: nat, step: nat, h: bv32): bv32
    requires l1 <= |s| && step > 0
    decreases l1
  {
    if l1 < step then h else HashFrom(s, l1 - step, step, h ^ ((h << 5) + (h >> 2) + (s[l1 - 1] as bv32)))
  }

  function KeyHash(k: Key): nat
  {
    match k
    case Int(i) => i % 0x1_0000_0000
    case Str(s) => CalcHash(s) as nat
  }

  /** The slot a key belongs to. */
  function Slot(k: Key, size: nat): (i: nat)
    requires size > 0
    ensures i < size
  {
    KeyHash(k) % size
  }

  /** A key of the array part. */
  predicate InArray(k: Key, sizearray: nat)
  {
    k.Int? && 0 < k.k <= sizearray
  }

  // ----- the source table -----

  /** A table as `lua_next` lists it: every key once. */
  predicate Distinct<V>(es: seq<Entry<V>>)
  {
    forall i, j | 0 <= i < j < |es| :: es[i].key != es[j].key
  }

  ghost predicate Has<V(!new)>(es: seq<Entry<V>>, k: Key, v: V)
  {
    exists i :: 0 <= i < |es| && es[i].key == k && es[i].value == v
  }

  ghost predicate HasKey<V(!new)>(es: seq<Entry<V>>, k: Key)
  {
    exists i :: 0 <= i < |es| && es[i].key == k
  }

  /** The entries of the hash part. */
  function HashPart<V>(es: seq<Entry<V>>, sizearray: nat): seq<Entry<V>>
  {
    if es == [] then []
    else
      var rest := HashPart(es[..|es| - 1], sizearray);
      if InArray(es[|es| - 1].key, sizearray) then rest else rest + [es[|es| - 1]]
  }

  function Keys<V>(es: seq<Entry<V>>): set<Key>
  {
    set i | 0 <= i < |es| :: es[i].key
  }

  // ----- slots and chains -----

  predicate Filled<V>(n: Node<V>)
  {
    n.value.Some?
  }

  /** The list of slots that starts at slot b: those of its keys, linked by `next`. */
  ghost predicate ChainOk<V(!new)>(hash: seq<Node<V>>, b: nat, c: seq<nat>)
    requires b < |hash|
  {
    c != [] ==>
      && c[0] == b
      && (forall i {:trigger c[i]} | 0 <= i < |c| ::
            c[i] < |hash| && Filled(hash[c[i]]) && Slot(hash[c[i]].key, |hash|) == b
            && hash[c[i]].next == (if i + 1 < |c| then c[i + 1] else -1))
      && (hash[b].nocolliding ==> |c| == 1)
  }

  ghost predicate NodeOk<V(!new)>(hash: seq<Node<V>>, chains: seq<seq<nat>>, i: nat)
    requires i < |hash| == |chains|
  {
    Filled(hash[i]) ==>
      && hash[i].keyhash == KeyHash(hash[i].key)
      && i in chains[Slot(hash[i].key, |hash|)]
      && (Slot(hash[i].key, |hash|) != i ==> !hash[i].nocolliding)
  }

  /** The slots that are filled hold distinct keys and are in the chain of their key. */
  ghost predicate TableOk<V(!new)>(hash: seq<Node<V>>, chains: seq<seq<nat>>)
  {
    && |hash| == |chains|
    && (forall b | 0 <= b < |hash| :: ChainOk(hash, b, chains[b]))
    && (forall i | 0 <= i < |hash| :: NodeOk(hash, chains, i))
    && (forall i, j | 0 <= i < j < |hash| && Filled(hash[i]) && Filled(hash[j]) :: hash[i].key != hash[j].key)
  }

  /** Every filled slot holds an entry of the source. */
  ghost predicate FromSource<V(!new)>(hash: seq<Node<V>>, es: seq<Entry<V>>)
  {
    forall i | 0 <= i < |hash| && Filled(hash[i]) :: Has(es, hash[i].key, hash[i].value.value)
  }

  /** A key has its slot. */
  ghost predicate Present<V(!new)>(hash: seq<Node<V>>, k: Key)
  {
    exists i :: 0 <= i < |hash| && Filled(hash[i]) && hash[i].key == k
  }

  // ----- the two ways a slot is filled -----

  function MainNode<V>(e: Entry<V>): Node<V>
  {
    Node(Some(e.value), e.key, -1, KeyHash(e.key), true)
  }

  /** Every filled slot is the slot of its key. */
  ghost predicate AllMain<V(!new)>(hash: seq<Node<V>>)
  {
    forall i | 0 <= i < |hash| && Filled(hash[i]) :: Slot(hash[i].key, |hash|) == i
  }

  lemma {:induction false} AddMain<V(!new)>(hash: seq<Node<V>>, chains: seq<seq<nat>>, e: Entry<V>)
    requires |hash| > 0 && TableOk(hash, chains) && AllMain(hash) && !Filled(hash[Slot(e.key, |hash|)])
    ensures var b := Slot(e.key, |hash|);
            TableOk(hash[b := MainNode(e)], chains[b := [b]]) && AllMain(hash[b := MainNode(e)])
  {
    hide CalcHash, KeyHash;
    var b := Slot(e.key, |hash|);
    var hash1, chains1 := hash[b := MainNode(e)], chains[b := [b]];
    forall d | 0 <= d < |hash1| ensures ChainOk(hash1, d, chains1[d]) {
      assert ChainOk(hash, d, chains[d]);
    }
    forall i | 0 <= i < |hash1| ensures NodeOk(hash1, chains1, i) {
      assert NodeOk(hash, chains, i);
    }
    hide Slot;
  }

  /** The node put into an empty slot, and the main slot that then leads to it. */
  function CollidingNode<V>(e: Entry<V>, next: int): Node<V>
  {
    Node(Some(e.value), e.key, next, KeyHash(e.key), false)
  }

  function Linked<V>(hash: seq<Node<V>>, e: Entry<V>, b: nat, n: nat): seq<Node<V>>
    requires b < |hash| && n < |hash|
  {
    hash[n := CollidingNode(e, hash[b].next)][b := hash[b].(next := n, nocolliding := false)]
  }

  lemma {:induction false} ChainLinked<V(!new)>(hash: seq<Node<V>>, e: Entry<V>, b: nat, n: nat, c: seq<nat>)
    requires b < |hash| && n < |hash| && b != n && !Filled(hash[n]) && b == Slot(e.key, |hash|)
    requires c != [] && ChainOk(hash, b, c) && forall i, j | 0 <= i < j < |c| :: c[i] != c[j]
    ensures ChainOk(Linked(hash, e, b, n), b, [b, n] + c[1..])
  {
    hide KeyHash, CalcHash, Slot;
    var h, d := Linked(hash, e, b, n), [b, n] + c[1..];
    forall i {:trigger d[i]} | 0 <= i < |d|
      ensures d[i] < |h| && Filled(h[d[i]]) && Slot(h[d[i]].key, |h|) == b
      ensures h[d[i]].next == (if i + 1 < |d| then d[i + 1] else -1)
    {
      assert c[0] == b;
      if i == 1 {
        if |d| > 2 { assert d[2] == c[1]; }
      } else if i > 1 {
        assert d[i] == c[i - 1] && d[i] != n && d[i] != b;
        if i + 1 < |d| { assert d[i + 1] == c[i]; }
      }
    }
  }

  lemma {:induction false} ChainNext<V(!new)>(hash: seq<Node<V>>, b: nat, c: seq<nat>, i: nat)
    requires b < |hash| && ChainOk(hash, b, c) && i < |c|
    ensures c[i] < |hash| && hash[c[i]].next == (if i + 1 < |c| then c[i + 1] else -1)
  {
    assert c[i] < |hash|;
  }

  /** A chain has no slot twice: it ends, and a slot says where it goes on. */
  lemma {:induction false} ChainDistinct<V(!new)>(hash: seq<Node<V>>, b: nat, c: seq<nat>, i: nat, j: nat)
    requires b < |hash| && ChainOk(hash, b, c) && i < j < |c|
    ensures c[i] != c[j]
    decreases |c| - j
  {
    hide ChainOk;
    ChainNext(hash, b, c, i);
    ChainNext(hash, b, c, j);
    if c[i] == c[j] && j + 1 < |c| { ChainDistinct(hash, b, c, i + 1, j + 1); }
  }

  lemma {:induction false} AddColliding<V(!new)>(hash: seq<Node<V>>, chains: seq<seq<nat>>, e: Entry<V>, n: nat)
    requires TableOk(hash, chains) && n < |hash| && !Filled(hash[n]) && !Present(hash, e.key)
    requires chains[Slot(e.key, |hash|)] != []
    ensures var b := Slot(e.key, |hash|);
            TableOk(Linked(hash, e, b, n), chains[b := [b, n] + chains[b][1..]])
  {
    hide CalcHash, KeyHash;
    var b := Slot(e.key, |hash|);
    var c := chains[b];
    var hash1, chains1 := Linked(hash, e, b, n), chains[b := [b, n] + c[1..]];
    assert ChainOk(hash, b, c) && c[0] == b && Filled(hash[b]);
    forall i, j | 0 <= i < j < |c| ensures c[i] != c[j] { ChainDistinct(hash, b, c, i, j); }
    ChainLinked(hash, e, b, n, c);
    forall d | 0 <= d < |hash1| ensures ChainOk(hash1, d, chains1[d]) {
      if d != b { OtherChain(hash, e, b, n, d, chains[d]); }
    }
    forall i | 0 <= i < |hash1| ensures NodeOk(hash1, chains1, i) {
      LinkedNode(hash, chains, e, b, n, i);
    }
    forall i, j | 0 <= i < j < |hash1| && Filled(hash1[i]) && Filled(hash1[j]) ensures hash1[i].key != hash1[j].key {
      LinkedKeys(hash, e, b, n, i, j);
    }
    hide ChainOk, NodeOk, Linked, Slot;
  }

  lemma {:induction false} OtherChain<V(!new)>(hash: seq<Node<V>>, e: Entry<V>, b: nat, n: nat, d: nat, c: seq<nat>)
    requires b < |hash| && n < |hash| && d < |hash| && d != b && !Filled(hash[n]) && b == Slot(e.key, |hash|)
    requires Filled(hash[b]) && Slot(hash[b].key, |hash|) == b && ChainOk(hash, d, c)
    ensures ChainOk(Linked(hash, e, b, n), d, c)
  {
    hide Slot;
    var h := Linked(hash, e, b, n);
    forall i {:trigger c[i]} | 0 <= i < |c|
      ensures c[i] < |h| && h[c[i]] == hash[c[i]]
    {
      assert c[i] != n && c[i] != b;
    }
    assert c != [] ==> h[d] == hash[d];
  }

  lemma {:induction false} LinkedNode<V(!new)>(hash: seq<Node<V>>, chains: seq<seq<nat>>, e: Entry<V>, b: nat,
                                               n: nat, i: nat)
    requires n < |hash| == |chains| && b == Slot(e.key, |hash|) && n != b && i < |hash|
    requires chains[b] != [] && chains[b][0] == b && Filled(hash[b]) && Slot(hash[b].key, |hash|) == b
    requires NodeOk(hash, chains, i) && NodeOk(hash, chains, b) && !Filled(hash[n])
    ensures NodeOk(Linked(hash, e, b, n), chains[b := [b, n] + chains[b][1..]], i)
  {
    hide Slot, KeyHash;
    var d := [b, n] + chains[b][1..];
    assert d[0] == b && d[1] == n;
    if i != n && i != b && Filled(hash[i]) && Slot(hash[i].key, |hash|) == b {
      var k :| 0 <= k < |chains[b]| && chains[b][k] == i;
      assert d[k + 1] == i;
    }
  }

  lemma {:induction false} LinkedKeys<V(!new)>(hash: seq<Node<V>>, e: Entry<V>, b: nat, n: nat, i: nat, j: nat)
    requires b < |hash| && n < |hash| && !Present(hash, e.key) && i < j < |hash| && b != n && Filled(hash[b])
    requires Filled(Linked(hash, e, b, n)[i]) && Filled(Linked(hash, e, b, n)[j])
    requires Filled(hash[i]) && Filled(hash[j]) ==> hash[i].key != hash[j].key
    ensures Linked(hash, e, b, n)[i].key != Linked(hash, e, b, n)[j].key
  {
  }

  /** Who is present after a slot is filled. */
  lemma {:induction false} LinkedPresent<V(!new)>(hash: seq<Node<V>>, e: Entry<V>, b: nat, n: nat, k: Key)
    requires b < |hash| && n < |hash| && b != n && Filled(hash[b]) && !Filled(hash[n])
    ensures Present(Linked(hash, e, b, n), k) <==> Present(hash, k) || k == e.key
  {
    var h := Linked(hash, e, b, n);
    if Present(h, k) {
      var i :| 0 <= i < |h| && Filled(h[i]) && h[i].key == k;
      assert i == n || (Filled(hash[i]) && hash[i].key == k);
    }
    if Present(hash, k) {
      var i :| 0 <= i < |hash| && Filled(hash[i]) && hash[i].key == k;
      assert Filled(h[i]) && h[i].key == k;
    }
    assert h[n].key == e.key;
  }

  // ----- counting -----

  lemma {:induction false} SubsetSize<T>(a: set<T>, b: set<T>)
    requires a <= b
    ensures |a| <= |b|
    decreases |a|
  {
    if a != {} {
      var x :| x in a;
      SubsetSize(a - {x}, b - {x});
    }
  }

  /** The slots of a set, and the keys in them. */
  function KeysIn<V>(hash: seq<Node<V>>, slots: set<nat>): set<Key>
    requires forall i | i in slots :: i < |hash|
  {
    set i | i in slots :: hash[i].key
  }

  lemma {:induction false} KeysInSize<V>(hash: seq<Node<V>>, slots: set<nat>)
    requires forall i | i in slots :: i < |hash|
    ensures |KeysIn(hash, slots)| <= |slots|
    ensures (forall i, j | i in slots && j in slots && i != j :: hash[i].key != hash[j].key)
         ==> |KeysIn(hash, slots)| == |slots|
    decreases |slots|
  {
    if slots == {} {
      assert KeysIn(hash, slots) == {};
    } else {
      var i :| i in slots;
      var rest := slots - {i};
      KeysInSize(hash, rest);
      assert KeysIn(hash, slots) == KeysIn(hash, rest) + {hash[i].key};
    }
  }

  function Below(n: nat): (s: set<nat>)
    ensures |s| == n && forall i: nat :: i in s <==> i < n
  {
    if n == 0 then {} else Below(n - 1) + {n - 1}
  }

  lemma {:induction false} KeysSize<V>(es: seq<Entry<V>>)
    ensures |Keys(es)| <= |es|
    ensures Distinct(es) ==> |Keys(es)| == |es|
    decreases |es|
  {
    if es == [] {
      assert Keys(es) == {};
    } else {
      var n := |es| - 1;
      KeysSize(es[..n]);
      assert Keys(es) == Keys(es[..n]) + {es[n].key};
      assert Distinct(es) ==> Distinct(es[..n]);
      assert forall i | 0 <= i < n :: es[..n][i] == es[i];
      if Distinct(es) { assert es[n].key !in Keys(es[..n]); }
    }
  }

  /** A key without a slot leaves a slot without a key. */
  lemma {:induction false} EmptySlot<V(!new)>(hash: seq<Node<V>>, es: seq<Entry<V>>, k: Key)
    requires |hash| == |es| && Distinct(es) && HasKey(es, k) && !Present(hash, k) && FromSource(hash, es)
    requires forall i, j | 0 <= i < j < |hash| && Filled(hash[i]) && Filled(hash[j]) :: hash[i].key != hash[j].key
    ensures exists i :: 0 <= i < |hash| && !Filled(hash[i])
  {
    if forall i | 0 <= i < |hash| :: Filled(hash[i]) {
      var slots := Below(|hash|);
      KeysInSize(hash, slots);
      KeysSize(es);
      assert k in Keys(es) && KeysIn(hash, slots) <= Keys(es) - {k};
      SubsetSize(KeysIn(hash, slots), Keys(es) - {k});
      assert false;
    }
  }

  /** With every key present no slot is left. */
  lemma {:induction false} AllFilled<V(!new)>(hash: seq<Node<V>>, es: seq<Entry<V>>, n: nat)
    requires |hash| == |es| && Distinct(es) && n < |hash|
    requires forall k | HasKey(es, k) :: Present(hash, k)
    ensures Filled(hash[n])
  {
    if !Filled(hash[n]) {
      var slots := Below(|hash|) - {n};
      KeysInSize(hash, slots);
      KeysSize(es);
      forall k | k in Keys(es) ensures k in KeysIn(hash, slots) {
        assert HasKey(es, k);
        var i :| 0 <= i < |hash| && Filled(hash[i]) && hash[i].key == k;
        assert i in slots;
      }
      SubsetSize(Keys(es), KeysIn(hash, slots));
      assert false;
    }
  }

  lemma {:induction false} HashPartHas<V(!new)>(es: seq<Entry<V>>, sizearray: nat, k: Key, v: V)
    ensures Has(HashPart(es, sizearray), k, v) <==> Has(es, k, v) && !InArray(k, sizearray)
    ensures HasKey(HashPart(es, sizearray), k) <==> HasKey(es, k) && !InArray(k, sizearray)
    decreases |es|
  {
    if es != [] {
      var n := |es| - 1;
      HashPartHas(es[..n], sizearray, k, v);
      HasSnoc(es[..n], es[n], k, v);
      assert es == es[..n] + [es[n]];
      HasSnoc(HashPart(es[..n], sizearray), es[n], k, v);
    }
  }

  lemma {:induction false} HasSnoc<V(!new)>(es: seq<Entry<V>>, e: Entry<V>, k: Key, v: V)
    ensures Has(es + [e], k, v) <==> Has(es, k, v) || (e.key == k && e.value == v)
    ensures HasKey(es + [e], k) <==> HasKey(es, k) || e.key == k
  {
    var fs := es + [e];
    assert fs[|es|] == e;
    if Has(es, k, v) {
      var i :| 0 <= i < |es| && es[i].key == k && es[i].value == v;
      assert fs[i] == es[i];
    }
    if HasKey(es, k) {
      var i :| 0 <= i < |es| && es[i].key == k;
      assert fs[i] == es[i];
    }
    if Has(fs, k, v) {
      var i :| 0 <= i < |fs| && fs[i].key == k && fs[i].value == v;
      assert i < |es| ==> es[i] == fs[i];
    }
    if HasKey(fs, k) {
      var i :| 0 <= i < |fs| && fs[i].key == k;
      assert i < |es| ==> es[i] == fs[i];
    }
  }

  lemma {:induction false} HashPartDistinct<V(!new)>(es: seq<Entry<V>>, sizearray: nat)
    requires Distinct(es)
    ensures Distinct(HashPart(es, sizearray))
    decreases |es|
  {
    if es != [] {
      var n := |es| - 1;
      HashPartDistinct(es[..n], sizearray);
      var r := HashPart(es[..n], sizearray);
      forall i | 0 <= i < |r| ensures r[i].key != es[n].key {
        HashPartHas(es[..n], sizearray, r[i].key, r[i].value);
        assert HasKey(r, r[i].key);
      }
    }
  }

  // ----- the table -----

  /** The array part agrees with the entries seen. */
  ghost predicate ArrayOk<V(!new)>(a: seq<Option<V>>, es: seq<Entry<V>>)
  {
    |a| < 0x8000_0000 && forall i | 0 <= i < |a| :: SlotOk(a[i], es, Int(i + 1))
  }

  ghost predicate SlotOk<V(!new)>(o: Option<V>, es: seq<Entry<V>>, k: Key)
  {
    (o.None? <==> !HasKey(es, k)) && (o.Some? ==> Has(es, k, o.value))
  }

  /** One more entry of the array part. */
  lemma {:induction false} ArraySnoc<V(!new)>(a: seq<Option<V>>, es: seq<Entry<V>>, e: Entry<V>)
    requires ArrayOk(a, es) && (InArray(e.key, |a|) ==> !HasKey(es, e.key))
    ensures InArray(e.key, |a|) ==> ArrayOk(a[e.key.k - 1 := Some(e.value)], es + [e])
    ensures !InArray(e.key, |a|) ==> ArrayOk(a, es + [e])
  {
    var b := if InArray(e.key, |a|) then a[e.key.k - 1 := Some(e.value)] else a;
    forall i | 0 <= i < |b| ensures SlotOk(b[i], es + [e], Int(i + 1)) {
      assert SlotOk(a[i], es, Int(i + 1));
      if b[i].Some? { HasSnoc(es, e, Int(i + 1), b[i].value); } else { HasSnoc(es, e, Int(i + 1), e.value); }
    }
    hide SlotOk;
  }

  /** The keys of the array part from index i on, in order. */
  function ArrayKeys<V>(a: seq<Option<V>>, i: nat): seq<Key>
    requires i <= |a| < 0x8000_0000
    decreases |a| - i
  {
    if i == |a| then [] else (if a[i].Some? then [Int(i + 1)] else []) + ArrayKeys(a, i + 1)
  }

  function HashKeys<V>(hash: seq<Node<V>>): (ks: seq<Key>)
    ensures |ks| == |hash| && forall i | 0 <= i < |hash| :: ks[i] == hash[i].key
  {
    seq(|hash|, i requires 0 <= i < |hash| => hash[i].key)
  }

  class Table<V(!new)> {
    var arr: array<Option<V>>
    var hash: array<Node<V>>
    ghost var chains: seq<seq<nat>>

    /** The table is the source table. */
    ghost predicate Frozen(es: seq<Entry<V>>)
      reads this, arr, hash
    {
      && Distinct(es) && ArrayOk(arr[..], es) && TableOk(hash[..], chains)
      && FromSource(hash[..], HashPart(es, arr.Length))
      && (forall k | HasKey(HashPart(es, arr.Length), k) :: Present(hash[..], k))
      && (forall i | 0 <= i < hash.Length :: Filled(hash[i]))
    }

    /** Memory as allocated: values cleared, the other fields of a slot left as they are. */
    constructor (sizearray: nat, sizehash: nat, junk: Node<V>)
      ensures fresh(arr) && fresh(hash) && arr.Length == sizearray && hash.Length == sizehash
      ensures forall i | 0 <= i < sizearray :: arr[i].None?
      ensures forall i | 0 <= i < sizehash :: !Filled(hash[i])
      ensures chains == seq(sizehash, _ => [])
    {
      arr := new Option<V>[sizearray](_ => None);
      hash := new Node<V>[sizehash](_ => junk.(value := None, nocolliding := false));
      chains := seq(sizehash, _ => []);
    }

    /** `fillnocolliding`: array entries, and each key whose slot is still empty. */
    method FillNoColliding(es: seq<Entry<V>>)
      requires hash.Length > 0 && arr.Length < 0x8000_0000 && Distinct(es)
      requires TableOk(hash[..], chains) && forall i | 0 <= i < hash.Length :: !Filled(hash[i])
      requires forall i | 0 <= i < arr.Length :: arr[i].None?
      modifies arr, hash, `chains
      ensures ArrayOk(arr[..], es) && TableOk(hash[..], chains) && AllMain(hash[..])
      ensures FromSource(hash[..], HashPart(es, arr.Length))
      ensures forall k | HasKey(HashPart(es, arr.Length), k) :: Filled(hash[Slot(k, hash.Length)])
    {
      hide CalcHash, KeyHash, Slot, TableOk, FromSource, ArrayOk, Has;
      StartOk(arr[..], hash[..]);
      assert |chains| == hash.Length by { SameLength(hash[..], chains); }
      var i := 0;
      while i < |es|
        invariant 0 <= i <= |es| && |chains| == hash.Length
        invariant ArrayOk(arr[..], es[..i]) && TableOk(hash[..], chains) && AllMain(hash[..])
        invariant FromSource(hash[..], HashPart(es[..i], arr.Length))
        invariant forall k | HasKey(HashPart(es[..i], arr.Length), k) :: Filled(hash[Slot(k, hash.Length)])
      {
        var e := es[i];
        assert es[..i + 1] == es[..i] + [e];
        ArraySnoc(arr[..], es[..i], e);
        HashPartSnoc(es[..i], e, arr.Length);
        if InArray(e.key, arr.Length) {
          ghost var a := arr[..];
          arr[e.key.k - 1] := Some(e.value);
          assert arr[..] == a[e.key.k - 1 := Some(e.value)];
        } else {
          var b := Slot(e.key, hash.Length);
          ghost var h, hs := hash[..], HashPart(es[..i], arr.Length);
          if hash[b].value.None? {
            AddMain(h, chains, e);
            hash[b] := Node(Some(e.value), e.key, -1, KeyHash(e.key), true);
            chains := chains[b := [b]];
            assert hash[..] == h[b := MainNode(e)];
          }
          MoreSource(h, hash[..], hs, e);
          forall k | HasKey(hs + [e], k) ensures Filled(hash[Slot(k, hash.Length)]) {
            HasSnoc(hs, e, k, e.value);
          }
        }
        i := i + 1;
      }
      assert es[..i] == es;
    }

    /** The first empty slot, as `fillcolliding` looks for it. */
    method FindEmpty() returns (n: nat)
      requires exists i :: 0 <= i < hash.Length && !Filled(hash[i])
      ensures n < hash.Length && !Filled(hash[n])
    {
      n := 0;
      while n < hash.Length
        invariant 0 <= n <= hash.Length && forall i | 0 <= i < n :: Filled(hash[i])
      {
        if hash[n].value.None? {
          return;
        }
        n := n + 1;
      }
    }

    /** The entries of the hash part from place i on have a slot only if it is their own. */
    ghost predicate ToCome(es: seq<Entry<V>>, i: nat)
      requires i <= |es| && hash.Length > 0
      reads this, hash, arr
    {
      forall j | i <= j < |es| && !InArray(es[j].key, arr.Length) && Present(hash[..], es[j].key) ::
        hash[Slot(es[j].key, hash.Length)].key == es[j].key
    }

    ghost predicate Done(es: seq<Entry<V>>, i: nat)
      requires i <= |es|
      reads this, hash, arr
    {
      forall j | 0 <= j < i && !InArray(es[j].key, arr.Length) :: Present(hash[..], es[j].key)
    }

    ghost predicate MainsThere(hs: seq<Entry<V>>)
      requires hash.Length > 0
      reads this, hash
    {
      |chains| == hash.Length && forall k | HasKey(hs, k) :: chains[Slot(k, hash.Length)] != []
    }

    /** One key without a slot gets one, behind its main slot. */
    method InsertColliding(es: seq<Entry<V>>, i: nat)
      requires hash.Length > 0 && i < |es| && Distinct(es) && !InArray(es[i].key, arr.Length)
      requires hash.Length == |HashPart(es, arr.Length)|
      requires TableOk(hash[..], chains) && FromSource(hash[..], HashPart(es, arr.Length))
      requires MainsThere(HashPart(es, arr.Length)) && Done(es, i) && ToCome(es, i) && !Present(hash[..], es[i].key)
      modifies hash, `chains
      ensures TableOk(hash[..], chains) && FromSource(hash[..], HashPart(es, arr.Length))
      ensures MainsThere(HashPart(es, arr.Length)) && Done(es, i + 1) && ToCome(es, i + 1)
    {
      hide CalcHash, KeyHash, Slot, NodeOk;
      var e := es[i];
      ghost var hs, h := HashPart(es, arr.Length), hash[..];
      assert Has(es, e.key, e.value) && HasKey(es, e.key);
      HashPartHas(es, arr.Length, e.key, e.value);
      HashPartDistinct(es, arr.Length);
      EmptySlot(h, hs, e.key);
      var n := FindEmpty();
      var b := Slot(e.key, hash.Length);
      assert ChainOk(h, b, chains[b]) && chains[b][0] == b;
      AddColliding(h, chains, e, n);
      hash[n] := Node(Some(e.value), e.key, hash[b].next, KeyHash(e.key), false);
      hash[b] := hash[b].(next := n, nocolliding := false);
      chains := chains[b := [b, n] + chains[b][1..]];
      assert hash[..] == Linked(h, e, b, n);
      KeepSource(h, hash[..], hs, e, n);
      forall j | 0 <= j < |es| && !InArray(es[j].key, arr.Length)
        ensures Present(hash[..], es[j].key) <==> Present(h, es[j].key) || j == i
        ensures hash[Slot(es[j].key, hash.Length)].key == h[Slot(es[j].key, hash.Length)].key
      {
        LinkedPresent(h, e, b, n, es[j].key);
        HashPartHas(es, arr.Length, es[j].key, es[j].value);
        assert HasKey(es, es[j].key);
        assert ChainOk(h, Slot(es[j].key, hash.Length), old(chains)[Slot(es[j].key, hash.Length)]);
      }
      hide ChainOk, FromSource, Linked, Present, HashPart;
    }

    /** `fillcolliding`: the keys that have no slot yet. */
    method FillColliding(es: seq<Entry<V>>)
      requires hash.Length > 0 && Distinct(es) && hash.Length == |HashPart(es, arr.Length)|
      requires TableOk(hash[..], chains) && FromSource(hash[..], HashPart(es, arr.Length))
      requires AllMain(hash[..])
      requires forall k | HasKey(HashPart(es, arr.Length), k) :: Filled(hash[Slot(k, hash.Length)])
      modifies hash, `chains
      ensures TableOk(hash[..], chains) && FromSource(hash[..], HashPart(es, arr.Length))
      ensures forall k | HasKey(HashPart(es, arr.Length), k) :: Present(hash[..], k)
      ensures forall i | 0 <= i < hash.Length :: Filled(hash[i])
    {
      ghost var hs := HashPart(es, arr.Length);
      forall k | HasKey(hs, k) ensures chains[Slot(k, hash.Length)] != [] {
        assert NodeOk(hash[..], chains, Slot(k, hash.Length));
      }
      hide CalcHash, KeyHash, Slot, ChainOk, NodeOk, HashPart;
      var i := 0;
      while i < |es|
        invariant 0 <= i <= |es|
        invariant TableOk(hash[..], chains) && FromSource(hash[..], hs)
        invariant MainsThere(hs) && Done(es, i) && ToCome(es, i)
      {
        var e := es[i];
        if !InArray(e.key, arr.Length) {
          var b := Slot(e.key, hash.Length);
          assert Has(es, e.key, e.value) && HasKey(es, e.key);
          HashPartHas(es, arr.Length, e.key, e.value);
          MainFilled(hash[..], chains, b);
          if hash[b].key != e.key {
            InsertColliding(es, i);
          }
        }
        i := i + 1;
      }
      forall k | HasKey(hs, k) ensures Present(hash[..], k) {
        var j :| 0 <= j < |hs| && hs[j].key == k;
        HashPartHas(es, arr.Length, k, hs[j].value);
      }
      HashPartDistinct(es, arr.Length);
      forall n | 0 <= n < hash.Length ensures Filled(hash[n]) { AllFilled(hash[..], hs, n); }
    }

    /** The empty hash part: only the array is set, from the values at its indices. */
    method FillArray(es: seq<Entry<V>>)
      requires Distinct(es) && arr.Length < 0x8000_0000 && HashPart(es, arr.Length) == []
      modifies arr
      ensures ArrayOk(arr[..], es)
    {
      var i := 0;
      while i < arr.Length
        invariant 0 <= i <= arr.Length && forall j | 0 <= j < i :: SlotOk(arr[j], es, Int(j + 1))
      {
        arr[i] := RawGet(es, Int(i + 1));
        i := i + 1;
      }
    }

    // ----- reading -----

    /** The loop of `lookup_key`, along the chain c of slot d from its place p on. */
    method Walk(k: Key, n0: nat, ghost d: nat, ghost c: seq<nat>, ghost from: nat) returns (n: int)
      requires d < hash.Length && ChainOk(hash[..], d, c) && from < |c| && c[from] == n0 < hash.Length
      requires forall i | 0 <= i < hash.Length :: hash[i].keyhash == KeyHash(hash[i].key)
      ensures -1 <= n < hash.Length
      ensures n >= 0 ==> hash[n].key == k
      ensures n < 0 ==> forall i | from <= i < |c| :: c[i] < hash.Length && hash[c[i]].key != k
    {
      hide CalcHash, KeyHash, Slot, ChainOk;
      n := n0;
      ghost var p := from;
      while true
        invariant from <= p < |c| && n == c[p] && n < hash.Length
        invariant forall i | from <= i < p :: c[i] < hash.Length && hash[c[i]].key != k
        decreases |c| - p
      {
        if KeyHash(k) == hash[n].keyhash && hash[n].key == k {
          return;
        }
        ChainNext(hash[..], d, c, p);
        if hash[n].next < 0 {
          return -1;
        }
        n := hash[n].next;
        p := p + 1;
        ChainNext(hash[..], d, c, p);
      }
    }

    /** `lookup_key`: the slot of a key, or -1. */
    method LookupKey(k: Key) returns (n: int)
      requires TableOk(hash[..], chains) && forall i | 0 <= i < hash.Length :: Filled(hash[i])
      ensures -1 <= n < hash.Length
      ensures n >= 0 ==> hash[n].key == k
      ensures n < 0 ==> !Present(hash[..], k)
    {
      hide CalcHash, KeyHash, Slot;
      if hash.Length == 0 {
        return -1;
      }
      ghost var h := hash[..];
      var b := Slot(k, hash.Length);
      n := b;
      assert NodeOk(h, chains, b) && Filled(h[b]);
      ghost var d := Slot(h[b].key, hash.Length);
      ghost var c := chains[d];
      assert ChainOk(h, d, c);
      ghost var p: nat :| p < |c| && c[p] == b;
      StartOfChain(h, chains, b, k, p);
      if KeyHash(k) != hash[n].keyhash && hash[n].nocolliding {
        NotInChain(h, chains, k, c, p);
        return -1;
      }
      forall i | 0 <= i < hash.Length ensures hash[i].keyhash == KeyHash(hash[i].key) {
        assert NodeOk(h, chains, i) && Filled(h[i]);
      }
      hide NodeOk, ChainOk, Present;
      n := Walk(k, b, d, c, p);
      if n < 0 {
        NotInChain(h, chains, k, c, p);
      }
    }

    /** `lindexconf` */
    method IndexConf(es: seq<Entry<V>>, k: Key) returns (r: Option<V>)
      requires Frozen(es)
      ensures SlotOk(r, es, k)
    {
      if InArray(k, arr.Length) {
        r := arr[k.k - 1];
        assert SlotOk(arr[..][k.k - 1], es, Int((k.k - 1) + 1));
        return;
      }
      var n := LookupKey(k);
      ghost var hs := HashPart(es, arr.Length);
      if n >= 0 {
        r := hash[n].value;
        assert Has(hs, hash[..][n].key, hash[..][n].value.value);
        HashPartHas(es, arr.Length, k, r.value);
        assert HasKey(es, k);
      } else {
        r := None;
        if HasKey(es, k) {
          var i :| 0 <= i < |es| && es[i].key == k;
          HashPartHas(es, arr.Length, k, es[i].value);
        }
      }
    }

    /** The order in which `lnextkey` gives the keys. */
    function Order(): seq<Key>
      requires arr.Length < 0x8000_0000
      reads this, arr, hash
    {
      ArrayKeys(arr[..], 0) + HashKeys(hash[..])
    }

    /** `pushfirsthash` */
    method FirstHash() returns (r: Option<Key>)
      ensures r == At(HashKeys(hash[..]), 0)
    {
      r := if hash.Length > 0 then Some(hash[0].key) else None;
    }

    /** The next index of the array part, or the first slot. */
    method NextFrom(i0: nat) returns (r: Option<Key>)
      requires i0 <= arr.Length < 0x8000_0000
      ensures r == At(ArrayKeys(arr[..], i0) + HashKeys(hash[..]), 0)
    {
      var i := i0;
      while i < arr.Length
        invariant i0 <= i <= arr.Length && ArrayKeys(arr[..], i0) == ArrayKeys(arr[..], i)
      {
        if arr[i].Some? {
          assert ArrayKeys(arr[..], i)[0] == Int(i + 1);
          return Some(Int(i + 1));
        }
        assert ArrayKeys(arr[..], i) == ArrayKeys(arr[..], i + 1);
        i := i + 1;
      }
      assert ArrayKeys(arr[..], i) + HashKeys(hash[..]) == HashKeys(hash[..]);
      r := FirstHash();
    }

    /** `lnextkey`: the first key, or the one after a key. */
    method NextKey(es: seq<Entry<V>>, k: Option<Key>) returns (r: Option<Key>)
      requires Frozen(es)
      ensures k.None? ==> r == At(Order(), 0)
      ensures forall j | 0 <= j < |Order()| && k == Some(Order()[j]) :: r == At(Order(), j + 1)
    {
      hide Order, TableOk, FromSource, ArrayKeys, HashKeys, Present, Distinct;
      if k.None? {
        r := NextFrom(0);
        OrderFirst();
        return;
      }
      var key := k.value;
      if InArray(key, arr.Length) {
        r := NextFrom(key.k);
        forall j | 0 <= j < |Order()| && Order()[j] == key ensures r == At(Order(), j + 1) { AfterArrayKey(es, j); }
        return;
      }
      var n := LookupKey(key);
      r := if n < 0 || n + 1 == hash.Length then None else Some(hash[n + 1].key);
      forall j | 0 <= j < |Order()| && Order()[j] == key ensures n >= 0 && r == At(Order(), j + 1) {
        AfterSlotKey(es, j, n);
      }
    }

    lemma {:induction false} OrderFirst()
      requires arr.Length < 0x8000_0000
      ensures At(Order(), 0) == At(ArrayKeys(arr[..], 0) + HashKeys(hash[..]), 0)
    {
    }

    /** What comes after an array key. */
    lemma {:induction false} AfterArrayKey(es: seq<Entry<V>>, j: nat)
      requires Frozen(es) && j < |Order()| && InArray(Order()[j], arr.Length)
      ensures At(Order(), j + 1) == At(ArrayKeys(arr[..], Order()[j].k) + HashKeys(hash[..]), 0)
    {
      var keys := ArrayKeys(arr[..], 0);
      if j < |keys| {
        ArrayKeyAt(arr[..], 0, j);
        assert Order()[j + 1..] == ArrayKeys(arr[..], Order()[j].k) + HashKeys(hash[..]);
      } else {
        SlotKeyOutside(es, j);
      }
    }

    /** What comes after the key of a slot. */
    lemma {:induction false} AfterSlotKey(es: seq<Entry<V>>, j: nat, n: int)
      requires Frozen(es) && j < |Order()| && !InArray(Order()[j], arr.Length) && n < hash.Length
      requires if n >= 0 then hash[n].key == Order()[j] else !Present(hash[..], Order()[j])
      ensures n >= 0 && At(Order(), j + 1) == if n + 1 == hash.Length then None else Some(hash[n + 1].key)
    {
      var keys := ArrayKeys(arr[..], 0);
      if j < |keys| { ArrayKeyAt(arr[..], 0, j); }
      SlotPresent(hash[..], j - |keys|);
      if n >= 0 { SlotsDistinct(n, j - |keys|); }
    }

    lemma {:induction false} SlotsDistinct(n: nat, m: nat)
      requires TableOk(hash[..], chains) && n < hash.Length && m < hash.Length && hash[n].key == hash[m].key
      requires Filled(hash[n]) && Filled(hash[m])
      ensures n == m
    {
      assert hash[..][n].key == hash[..][m].key;
    }

    /** A slot holds no key of the array part. */
    lemma {:induction false} SlotKeyOutside(es: seq<Entry<V>>, j: nat)
      requires Frozen(es) && j < |Order()| && j >= |ArrayKeys(arr[..], 0)|
      ensures !InArray(Order()[j], arr.Length)
    {
      var n := j - |ArrayKeys(arr[..], 0)|;
      assert Has(HashPart(es, arr.Length), hash[..][n].key, hash[..][n].value.value);
      HashPartHas(es, arr.Length, hash[n].key, hash[n].value.value);
    }

    /** The order lists each key of the source once. */
    lemma {:induction false} OrderIsKeys(es: seq<Entry<V>>, k: Key)
      requires Frozen(es)
      ensures k in Order() <==> HasKey(es, k)
    {
      var a, h, hs := arr[..], hash[..], HashPart(es, arr.Length);
      ArrayKeysAre(a, 0, k);
      if InArray(k, |a|) { assert SlotOk(a[k.k - 1], es, Int((k.k - 1) + 1)); }
      if HasKey(es, k) {
        var i :| 0 <= i < |es| && es[i].key == k;
        HashPartHas(es, arr.Length, k, es[i].value);
        if !InArray(k, |a|) {
          assert Present(h, k);
          var n :| 0 <= n < |h| && Filled(h[n]) && h[n].key == k;
          assert HashKeys(h)[n] == k;
        }
      }
      if k in HashKeys(h) {
        var n :| 0 <= n < |h| && HashKeys(h)[n] == k;
        assert Has(hs, h[n].key, h[n].value.value);
        HashPartHas(es, arr.Length, k, h[n].value.value);
        assert HasKey(es, k);
      }
    }

    lemma {:induction false} OrderOnce(es: seq<Entry<V>>, i: nat, j: nat)
      requires Frozen(es) && i < j < |Order()|
      ensures Order()[i] != Order()[j]
    {
      var n := |ArrayKeys(arr[..], 0)|;
      if j < n {
        ArrayKeysOnce(arr[..], 0, i, j);
      } else if i < n {
        ArrayKeyAt(arr[..], 0, i);
        SlotKeyOutside(es, j);
      } else {
        assert hash[..][i - n].key != hash[..][j - n].key;
      }
    }

    /** Going on from nil with `lnextkey` visits every key of the source exactly once. */
    method Traverse(es: seq<Entry<V>>) returns (ks: seq<Key>)
      requires Frozen(es)
      ensures forall k :: k in ks <==> HasKey(es, k)
      ensures forall i, j | 0 <= i < j < |ks| :: ks[i] != ks[j]
    {
      ks := [];
      var k := NextKey(es, None);
      while k.Some?
        invariant |ks| <= |Order()| && ks == Order()[..|ks|] && k == At(Order(), |ks|)
        decreases |Order()| - |ks|
      {
        ks := ks + [k.value];
        k := NextKey(es, k);
      }
      forall q ensures q in ks <==> HasKey(es, q) { OrderIsKeys(es, q); }
      forall i, j | 0 <= i < j < |ks| ensures ks[i] != ks[j] { OrderOnce(es, i, j); }
    }
  }

  /** `convtable`, for a table of which `sizearray` is the border and `junk` what memory held. */
  method ConvTable<V(!new)>(es: seq<Entry<V>>, sizearray: nat, junk: Node<V>) returns (t: Table<V>)
    requires Distinct(es) && sizearray < 0x8000_0000
    ensures fresh(t) && t.Frozen(es) && t.arr.Length == sizearray
  {
    var sizehash := CountSize(es, sizearray);
    t := new Table<V>(sizearray, sizehash, junk);
    if sizehash > 0 {
      Unfilled(t.hash[..], t.chains);
      t.FillNoColliding(es);
      t.FillColliding(es);
    } else {
      t.FillArray(es);
    }
  }

  lemma {:induction false} Unfilled<V(!new)>(h: seq<Node<V>>, chains: seq<seq<nat>>)
    requires |h| == |chains| && (forall i | 0 <= i < |h| :: !Filled(h[i])) && forall i | 0 <= i < |h| :: chains[i] == []
    ensures TableOk(h, chains)
  {
  }

  /** `countsize` */
  method CountSize<V>(es: seq<Entry<V>>, sizearray: nat) returns (n: nat)
    ensures n == |HashPart(es, sizearray)|
  {
    n := 0;
    var i := 0;
    while i < |es|
      invariant 0 <= i <= |es| && n == |HashPart(es[..i], sizearray)|
    {
      assert es[..i + 1] == es[..i] + [es[i]];
      HashPartSnoc(es[..i], es[i], sizearray);
      n := n + 1;
      var key := es[i].key;
      if key.Int? && 0 < key.k <= sizearray {
        n := n - 1;
      }
      i := i + 1;
    }
    assert es[..i] == es;
  }

  lemma {:induction false} ArrayKeysAre<V>(a: seq<Option<V>>, i: nat, k: Key)
    requires i <= |a| < 0x8000_0000
    ensures k in ArrayKeys(a, i) <==> k.Int? && i < k.k <= |a| && a[k.k - 1].Some?
    decreases |a| - i
  {
    if i < |a| { ArrayKeysAre(a, i + 1, k); }
  }

  lemma {:induction false} ArrayKeysOnce<V>(a: seq<Option<V>>, i: nat, x: nat, y: nat)
    requires i <= |a| < 0x8000_0000 && x < y < |ArrayKeys(a, i)|
    ensures ArrayKeys(a, i)[x] != ArrayKeys(a, i)[y]
    decreases |a| - i
  {
    if a[i].Some? {
      if x > 0 {
        ArrayKeysOnce(a, i + 1, x - 1, y - 1);
      } else {
        ArrayKeysAre(a, i + 1, ArrayKeys(a, i + 1)[y - 1]);
      }
    } else {
      ArrayKeysOnce(a, i + 1, x, y);
    }
  }

  function At<T>(s: seq<T>, i: nat): Option<T>
  {
    if i < |s| then Some(s[i]) else None
  }

  /** `lua_rawgeti` */
  method RawGet<V(!new)>(es: seq<Entry<V>>, k: Key) returns (r: Option<V>)
    requires Distinct(es)
    ensures SlotOk(r, es, k)
  {
    var i := 0;
    while i < |es|
      invariant 0 <= i <= |es| && forall j | 0 <= j < i :: es[j].key != k
    {
      if es[i].key == k {
        assert Has(es, k, es[i].value) && HasKey(es, k);
        return Some(es[i].value);
      }
      i := i + 1;
    }
    r := None;
  }

  /** A walk that starts at the slot of a key meets the chain of the key at its head. */
  lemma {:induction false} StartOfChain<V(!new)>(hash: seq<Node<V>>, chains: seq<seq<nat>>, b: nat, k: Key, p: nat)
    requires TableOk(hash, chains) && b < |hash| && Filled(hash[b]) && b == Slot(k, |hash|)
    requires var c := chains[Slot(hash[b].key, |hash|)]; p < |c| && c[p] == b
    ensures chains[b] != [] ==> p == 0 && Slot(hash[b].key, |hash|) == b
  {
    hide KeyHash;
    if chains[b] != [] {
      assert ChainOk(hash, b, chains[b]) && chains[b][0] == b;
      assert Filled(hash[chains[b][0]]);
      if p > 0 { ChainDistinct(hash, b, chains[b], 0, p); }
    }
  }

  /** A key that the walk from its slot does not meet has no slot. */
  lemma {:induction false} NotInChain<V(!new)>(hash: seq<Node<V>>, chains: seq<seq<nat>>, k: Key, c: seq<nat>, p: nat)
    requires TableOk(hash, chains) && |hash| > 0
    requires chains[Slot(k, |hash|)] != [] ==> c == chains[Slot(k, |hash|)] && p == 0
    requires forall i | p <= i < |c| :: c[i] < |hash| && hash[c[i]].key != k
    ensures !Present(hash, k)
  {
    hide KeyHash, Slot, TableOk;
    if Present(hash, k) {
      var i :| 0 <= i < |hash| && Filled(hash[i]) && hash[i].key == k;
      InItsChain(hash, chains, i);
      assert false;
    }
  }

  lemma {:induction false} InItsChain<V(!new)>(hash: seq<Node<V>>, chains: seq<seq<nat>>, i: nat)
    requires TableOk(hash, chains) && i < |hash| && Filled(hash[i])
    ensures i in chains[Slot(hash[i].key, |hash|)]
  {
    assert NodeOk(hash, chains, i);
  }

  lemma {:induction false} SlotPresent<V(!new)>(hash: seq<Node<V>>, i: nat)
    requires i < |hash| && Filled(hash[i])
    ensures Present(hash, hash[i].key)
  {
  }

  /** Where an array key stands in the order, and what follows it. */
  lemma {:induction false} ArrayKeyAt<V>(a: seq<Option<V>>, i: nat, j: nat)
    requires i <= |a| < 0x8000_0000 && j < |ArrayKeys(a, i)|
    ensures var k := ArrayKeys(a, i)[j]; InArray(k, |a|) && ArrayKeys(a, i)[j + 1..] == ArrayKeys(a, k.k)
    decreases |a| - i
  {
    if a[i].Some? {
      if j > 0 { ArrayKeyAt(a, i + 1, j - 1); }
    } else {
      ArrayKeyAt(a, i + 1, j);
    }
  }

  lemma {:induction false} MainFilled<V(!new)>(hash: seq<Node<V>>, chains: seq<seq<nat>>, b: nat)
    requires TableOk(hash, chains) && b < |hash| && chains[b] != []
    ensures Filled(hash[b])
  {
    assert ChainOk(hash, b, chains[b]) && chains[b][0] == b;
  }

  lemma {:induction false} KeepSource<V(!new)>(h: seq<Node<V>>, g: seq<Node<V>>, es: seq<Entry<V>>, e: Entry<V>, n: nat)
    requires FromSource(h, es) && Has(es, e.key, e.value) && n < |g| == |h|
    requires g[n].key == e.key && g[n].value == Some(e.value)
    requires forall i | 0 <= i < |g| && i != n :: g[i].value == h[i].value && g[i].key == h[i].key
    ensures FromSource(g, es)
  {
    forall i | 0 <= i < |g| && Filled(g[i]) ensures Has(es, g[i].key, g[i].value.value) {
      assert i != n ==> Filled(h[i]);
    }
  }

  lemma {:induction false} SameLength<V(!new)>(h: seq<Node<V>>, chains: seq<seq<nat>>)
    requires TableOk(h, chains)
    ensures |h| == |chains|
  {
  }

  lemma {:induction false} StartOk<V(!new)>(a: seq<Option<V>>, h: seq<Node<V>>)
    requires forall i | 0 <= i < |a| :: a[i].None?
    requires forall i | 0 <= i < |h| :: !Filled(h[i])
    ensures |a| < 0x8000_0000 ==> ArrayOk(a, [])
    ensures FromSource(h, [])
  {
  }

  lemma {:induction false} HashPartSnoc<V>(es: seq<Entry<V>>, e: Entry<V>, sizearray: nat)
    ensures HashPart(es + [e], sizearray)
         == if InArray(e.key, sizearray) then HashPart(es, sizearray) else HashPart(es, sizearray) + [e]
  {
    assert (es + [e])[..|es|] == es;
  }

  lemma {:induction false} MoreSource<V(!new)>(h: seq<Node<V>>, g: seq<Node<V>>, es: seq<Entry<V>>, e: Entry<V>)
    requires FromSource(h, es) && |g| == |h|
    requires forall i | 0 <= i < |g| && Filled(g[i]) ::
               (g[i].key == e.key && g[i].value == Some(e.value))
               || (Filled(h[i]) && g[i].key == h[i].key && g[i].value == h[i].value)
    ensures FromSource(g, es + [e])
  {
    forall i | 0 <= i < |g| && Filled(g[i]) ensures Has(es + [e], g[i].key, g[i].value.value) {
      HasSnoc(es, e, g[i].key, g[i].value.value);
    }
  }
}
