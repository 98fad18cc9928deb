/** The hierarchical timing wheel of skynet_timer.c: 256 near slots and four levels of 64 slots
    over a 32-bit clock that wraps. It behaves like one list of timers, each of which is
    dispatched in exactly the tick its delay asks for. */
module TimerWheel {

  const CLOCK := 0x1_0000_0000
  const TIME_NEAR := 256
  const TIME_LEVEL := 64

  type Tick = x: int | 0 <= x < CLOCK

  /** `expire` is absolute; `id` tells timers apart, and is used by no operation. */
  datatype Node = Node(id: nat, expire: Tick)

  datatype Slot = Near(k: nat) | Level(i: nat, k: nat)

  predicate SlotOk(slot: Slot)
  {
    match slot
    case Near(k) => k < TIME_NEAR
    case Level(i, k) => i < 4 && k < TIME_LEVEL
  }

  /** Ticks from `now` until the clock shows `expire`. */
  function Remaining(expire: Tick, now: Tick): nat { (expire - now) % CLOCK }

  /** `x >> 8`, `x >> 14`, `x >> 20`, `x >> 26`: two times with equal numbers agree on all higher
      bits, which the C code tests by or-ing the lower bits away. */
  function Block(i: nat, x: Tick): (b: nat)
    requires i < 4
  {
    if i == 0 then x / 0x100 else if i == 1 then x / 0x4000 else if i == 2 then x / 0x10_0000 else x / 0x400_0000
  }

  /** The list a timer belongs in, from its expiry and the clock alone. */
  function Place(expire: Tick, now: Tick): (slot: Slot)
    ensures SlotOk(slot)
  {
    if Block(0, expire) == Block(0, now) then Near(expire % 0x100)
    else if Block(1, expire) == Block(1, now) then Level(0, Block(0, expire) % 64)
    else if Block(2, expire) == Block(2, now) then Level(1, Block(1, expire) % 64)
    else if Block(3, expire) == Block(3, now) then Level(2, Block(2, expire) % 64)
    else Level(3, Block(3, expire) % 64)
  }

  datatype Moved = NoList | List(i: nat, k: nat)

  /** The list that `timer_shift` takes apart when the clock reaches `now`. */
  function MovedAt(now: Tick): (m: Moved)
    ensures m.List? ==> SlotOk(Level(m.i, m.k))
  {
    if now == 0 then List(3, 0)
    else if now % 0x100 != 0 then NoList
    else if Block(0, now) % 64 != 0 then List(0, Block(0, now) % 64)
    else if Block(1, now) % 64 != 0 then List(1, Block(1, now) % 64)
    else if Block(2, now) % 64 != 0 then List(2, Block(2, now) % 64)
    else List(3, Block(3, now) % 64)
  }

  function Next(now: Tick): Tick { (now + 1) % CLOCK }

  const MAXDELAY := 0x8000_0000

  /** Timers in one block of the top level are never behind the clock. */
  lemma SameBlockAhead(expire: Tick, now: Tick)
    requires 1 <= Remaining(expire, now) < MAXDELAY && Block(3, expire) == Block(3, now)
    ensures expire > now
  {
  }

  /** Blocks of a level nest in blocks of the next. */
  lemma Nested(x: Tick)
    ensures Block(1, x) == Block(0, x) / 64 && Block(2, x) == Block(1, x) / 64 && Block(3, x) == Block(2, x) / 64
    ensures Block(3, x) < 64
  {
  }

  /** The clock enters a new block of a level at that block's first tick, when the block numbers
      of the levels below are multiples of 64. */
  lemma NewBlock(now: Tick, n: Tick, i: nat)
    requires i < 4 && n == now + 1 && Block(i, n) != Block(i, now)
    ensures n % 0x100 == 0
    ensures forall j: nat | j < i :: Block(j, n) % 64 == 0
  {
    if i == 1 {
      StartsBlock1(n);
    } else if i == 2 {
      StartsBlock2(n);
    } else if i == 3 {
      StartsBlock3(n);
    }
  }

  lemma StartsBlock1(n: Tick)
    requires n > 0 && n / 0x4000 != (n - 1) / 0x4000
    ensures n % 0x100 == 0 && n / 0x100 % 64 == 0
  {
  }

  lemma StartsBlock2(n: Tick)
    requires n > 0 && n / 0x10_0000 != (n - 1) / 0x10_0000
    ensures n % 0x100 == 0 && n / 0x100 % 64 == 0 && n / 0x4000 % 64 == 0
  {
    assert n / 0x4000 % 64 == 0;
    assert n / 0x4000 != (n - 1) / 0x4000;
    StartsBlock1(n);
  }

  lemma StartsBlock3(n: Tick)
    requires n > 0 && n / 0x400_0000 != (n - 1) / 0x400_0000
    ensures n % 0x100 == 0 && n / 0x100 % 64 == 0 && n / 0x4000 % 64 == 0 && n / 0x10_0000 % 64 == 0
  {
    assert n / 0x10_0000 % 64 == 0;
    assert n / 0x10_0000 != (n - 1) / 0x10_0000;
    StartsBlock2(n);
  }

  lemma Between(now: Tick, expire: Tick, i: nat)
    requires i < 4 && now < expire && Block(i, expire) == Block(i, now)
    ensures Block(i, now + 1) == Block(i, now)
  {
  }

  /** When the clock advances, a timer changes its list only if its list is the one taken apart. */
  lemma PlaceStable(expire: Tick, now: Tick)
    requires 1 <= Remaining(expire, now) < MAXDELAY
    ensures Place(expire, Next(now)) == Place(expire, now)
            || (MovedAt(Next(now)).List? && Place(expire, now) == Level(MovedAt(Next(now)).i, MovedAt(Next(now)).k))
  {
    var n := Next(now);
    if Block(3, expire) == Block(3, now) {
      SameBlockAhead(expire, now);
      assert n == now + 1;
      hide Block, Remaining, Next;
      forall i: nat | i < 4 && Block(i, expire) == Block(i, now) ensures Block(i, n) == Block(i, now) {
        Between(now, expire, i);
      }
      forall i: nat | i < 4 && Block(i, n) != Block(i, now)
        ensures n % 0x100 == 0 && forall j: nat | j < i :: Block(j, n) % 64 == 0
      {
        NewBlock(now, n, i);
      }
      Nested(n);
      Nested(now);
      Nested(expire);
    } else {
      TopStable(expire, now);
    }
  }

  lemma TopStable(expire: Tick, now: Tick)
    requires Block(3, expire) != Block(3, now)
    ensures Place(expire, Next(now)) == Place(expire, now)
            || (MovedAt(Next(now)).List? && Place(expire, now) == Level(MovedAt(Next(now)).i, MovedAt(Next(now)).k))
  {
    var n := Next(now);
    Nested(n);
    Nested(now);
    Nested(expire);
    if n == 0 {
      assert Block(0, n) == 0 && Block(3, n) == 0;
    } else {
      assert n == now + 1;
      if Block(3, n) != Block(3, now) {
        NewBlock(now, n, 3);
        assert Block(0, n) % 64 == 0 && Block(1, n) % 64 == 0 && Block(2, n) % 64 == 0;
      }
    }
    hide Block, Next;
  }

  /** The near list under the clock holds the timers due now. */
  lemma DueHere(expire: Tick, now: Tick)
    ensures Place(expire, now) == Near(now % 0x100) <==> expire == now
  {
  }

  // ----- the specification: one list of pending timers -----

  /** The timers of a list that expire at `e`, in order. */
  function Due(list: seq<Node>, e: Tick): (r: seq<Node>)
    ensures forall n | n in r :: n in list && n.expire == e
  {
    if list == [] then []
    else (if list[0].expire == e then [list[0]] else []) + Due(list[1..], e)
  }

  /** The timers that do not. */
  function Later(list: seq<Node>, e: Tick): (r: seq<Node>)
    ensures forall n | n in r :: n in list && n.expire != e
  {
    if list == [] then []
    else (if list[0].expire == e then [] else [list[0]]) + Later(list[1..], e)
  }

  lemma {:induction false} DueConcat(a: seq<Node>, b: seq<Node>, e: Tick)
    ensures Due(a + b, e) == Due(a, e) + Due(b, e)
    decreases a
  {
    if a == [] {
      assert a + b == b;
    } else {
      DueConcat(a[1..], b, e);
      assert (a + b)[1..] == a[1..] + b;
      assert (a + b)[0] == a[0];
    }
  }

  lemma {:induction false} DueOfLater(list: seq<Node>, e: Tick, f: Tick)
    ensures Due(Later(list, e), f) == if e == f then [] else Due(list, f)
    decreases list
  {
    if list != [] {
      DueOfLater(list[1..], e, f);
      var head := if list[0].expire == e then [] else [list[0]];
      DueConcat(head, Later(list[1..], e), f);
    }
  }

  lemma {:induction false} AllDue(list: seq<Node>, e: Tick)
    requires forall n | n in list :: n.expire == e
    ensures Due(list, e) == list
    decreases list
  {
    if list != [] { AllDue(list[1..], e); }
  }

  lemma {:induction false} NoneDue(list: seq<Node>, e: Tick)
    requires forall n | n in list :: n.expire != e
    ensures Due(list, e) == []
    decreases list
  {
    if list != [] { NoneDue(list[1..], e); }
  }

  /** The timers of a list whose place is `slot`. */
  function Placed(list: seq<Node>, slot: Slot, now: Tick): (r: seq<Node>)
    ensures forall n | n in r :: n in list && Place(n.expire, now) == slot
  {
    if list == [] then []
    else (if Place(list[0].expire, now) == slot then [list[0]] else []) + Placed(list[1..], slot, now)
  }

  lemma {:induction false} PlacedPrefix(list: seq<Node>, k: nat, slot: Slot, now: Tick)
    requires k < |list|
    ensures Placed(list[..k + 1], slot, now)
            == Placed(list[..k], slot, now) + (if Place(list[k].expire, now) == slot then [list[k]] else [])
    decreases list
  {
    if k > 0 {
      PlacedPrefix(list[1..], k - 1, slot, now);
      assert list[..k + 1][1..] == list[1..][..k];
      assert list[..k][1..] == list[1..][..k - 1];
    } else {
      assert list[..1][1..] == [];
    }
  }

  /** Taking a list apart keeps timers of one expiry together and in order. */
  lemma {:induction false} DueOfPlaced(list: seq<Node>, slot: Slot, now: Tick, e: Tick)
    ensures Due(Placed(list, slot, now), e) == if Place(e, now) == slot then Due(list, e) else []
    decreases list
  {
    if list != [] {
      DueOfPlaced(list[1..], slot, now, e);
      var head := if Place(list[0].expire, now) == slot then [list[0]] else [];
      DueConcat(head, Placed(list[1..], slot, now), e);
    }
  }

  /** What adding a timer does to the pending list. */
  function Added(pending: seq<Node>, now: Tick, id: nat, delay: nat): seq<Node>
  {
    pending + [Node(id, (now + delay) % CLOCK)]
  }

  /** Requests to add timers: identity and delay. */
  type Requests = seq<(nat, nat)>

  predicate DelaysOk(rs: Requests) { forall r | r in rs :: 1 <= r.1 < MAXDELAY }

  function AllAdded(pending: seq<Node>, now: Tick, rs: Requests): seq<Node>
    decreases rs
  {
    if rs == [] then pending else AllAdded(Added(pending, now, rs[0].0, rs[0].1), now, rs[1..])
  }

  lemma {:induction false} AllAddedSnoc(pending: seq<Node>, now: Tick, rs: Requests, k: nat)
    requires k < |rs|
    ensures AllAdded(pending, now, rs[..k + 1]) == Added(AllAdded(pending, now, rs[..k]), now, rs[k].0, rs[k].1)
    decreases k
  {
    if k > 0 {
      assert rs[..k + 1][1..] == rs[1..][..k];
      assert rs[..k][1..] == rs[1..][..k - 1];
      AllAddedSnoc(Added(pending, now, rs[0].0, rs[0].1), now, rs[1..], k - 1);
    } else {
      assert rs[..1][1..] == [];
    }
  }

  // ----- the wheel, as lists per slot -----

  type Wheel = imap<Slot, seq<Node>>

  ghost predicate Complete(w: Wheel) { forall slot | SlotOk(slot) :: slot in w }

  /** Every pending timer sits in the one list that its expiry and the clock determine, at most
      `MAXDELAY` and at least `least` ticks away; timers of equal expiry are there in the order
      they were added. */
  ghost predicate Holds(w: Wheel, now: Tick, pending: seq<Node>, least: nat)
  {
    && Complete(w)
    && (forall slot | SlotOk(slot) ::
          forall n | n in w[slot] :: Place(n.expire, now) == slot && least <= Remaining(n.expire, now) < MAXDELAY)
    && (forall e: Tick {:trigger Due(pending, e)} :: Due(w[Place(e, now)], e) == Due(pending, e))
  }

  ghost function Linked(w: Wheel, now: Tick, node: Node): (r: Wheel)
    requires Complete(w)
    ensures Complete(r)
  {
    var slot := Place(node.expire, now);
    w[slot := w[slot] + [node]]
  }

  lemma AddHolds(w: Wheel, now: Tick, pending: seq<Node>, id: nat, delay: nat)
    requires Holds(w, now, pending, 1) && 1 <= delay < MAXDELAY
    ensures Holds(Linked(w, now, Node(id, (now + delay) % CLOCK)), now, Added(pending, now, id, delay), 1)
  {
    hide Block;
    var node := Node(id, (now + delay) % CLOCK);
    NewRemaining(now, delay);
    var w', pending' := Linked(w, now, node), Added(pending, now, id, delay);
    hide Place, Remaining;
    forall e: Tick ensures Due(w'[Place(e, now)], e) == Due(pending', e) {
      DueConcat(pending, [node], e);
      DueConcat(w[Place(e, now)], [node], e);
      if e != node.expire { NoneDue([node], e); }
    }
  }

  /** The wheel with list `from` emptied and the timers `moved` put where they belong. */
  ghost function Spread(w: Wheel, from: Slot, moved: seq<Node>, now: Tick): (r: Wheel)
    requires Complete(w)
    ensures Complete(r)
  {
    imap slot | SlotOk(slot) :: (if slot == from then [] else w[slot]) + Placed(moved, slot, now)
  }

  lemma SpreadNothing(w: Wheel, from: Slot, now: Tick)
    requires Complete(w)
    ensures Spread(w, from, [], now) == imap slot | SlotOk(slot) :: if slot == from then [] else w[slot]
  {
    SameWheel(Spread(w, from, [], now), imap slot | SlotOk(slot) :: if slot == from then [] else w[slot]);
  }

  lemma SameWheel(a: Wheel, b: Wheel)
    requires forall slot: Slot :: (slot in a <==> SlotOk(slot)) && (slot in b <==> SlotOk(slot))
    requires forall slot | SlotOk(slot) :: a[slot] == b[slot]
    ensures a == b
  {
  }

  lemma SpreadStep(w: Wheel, from: Slot, list: seq<Node>, k: nat, now: Tick)
    requires Complete(w) && k < |list|
    ensures Linked(Spread(w, from, list[..k], now), now, list[k]) == Spread(w, from, list[..k + 1], now)
  {
    hide Place, Placed, SlotOk;
    var p, n := Place(list[k].expire, now), list[k];
    var a, b := Spread(w, from, list[..k], now), Spread(w, from, list[..k + 1], now);
    forall slot | SlotOk(slot) ensures a[slot] + (if slot == p then [n] else []) == b[slot] {
      PlacedPrefix(list, k, slot, now);
      Regroup(if slot == from then [] else w[slot], Placed(list[..k], slot, now), if slot == p then [n] else []);
    }
    SameWheel(Linked(a, now, n), b);
  }

  lemma Regroup(a: seq<Node>, b: seq<Node>, c: seq<Node>)
    ensures a + b + c == a + (b + c)
  {
  }

  /** The wheel after `timer_shift` has moved the clock to `now`. */
  ghost function Shifted(w: Wheel, now: Tick): (r: Wheel)
    requires Complete(w)
    ensures Complete(r)
  {
    match MovedAt(now)
    case NoList => w
    case List(i, k) => Spread(w, Level(i, k), w[Level(i, k)], now)
  }

  lemma {:induction false} ShiftedList(w: Wheel, now: Tick, i: nat, k: nat)
    requires Complete(w) && MovedAt(now) == List(i, k)
    ensures Shifted(w, now) == Spread(w, Level(i, k), w[Level(i, k)], now)
  {
  }

  lemma OneTickLess(expire: Tick, now: Tick)
    requires Remaining(expire, now) >= 1
    ensures Remaining(expire, Next(now)) == Remaining(expire, now) - 1
  {
  }

  /** Cascading loses nothing, duplicates nothing and keeps order. */
  lemma ShiftHolds(w: Wheel, now: Tick, pending: seq<Node>)
    requires Holds(w, now, pending, 1)
    ensures Holds(Shifted(w, Next(now)), Next(now), pending, 0)
  {
    hide Block, Remaining, Next, Place;
    var n2 := Next(now);
    var w' := Shifted(w, n2);
    forall slot: Slot, n: Node | SlotOk(slot) && n in w'[slot]
      ensures Place(n.expire, n2) == slot && 0 <= Remaining(n.expire, n2) < MAXDELAY
    {
      var origin: Slot := if n in w[slot] then slot else Level(MovedAt(n2).i, MovedAt(n2).k);
      assert n in w[origin];
      OneTickLess(n.expire, now);
      PlaceStable(n.expire, now);
    }
    forall e: Tick ensures Due(w'[Place(e, n2)], e) == Due(pending, e) {
      ShiftKeepsDue(w, now, pending, e);
    }
  }

  lemma ShiftKeepsDue(w: Wheel, now: Tick, pending: seq<Node>, e: Tick)
    requires Holds(w, now, pending, 1)
    ensures Due(Shifted(w, Next(now))[Place(e, Next(now))], e) == Due(pending, e)
  {
    var n2 := Next(now);
    hide Block, Remaining, Next, Place;
    var p, p2 := Place(e, now), Place(e, n2);
    if 1 <= Remaining(e, now) < MAXDELAY { PlaceStable(e, now); }
    assert Due(w[p], e) == Due(pending, e);
    if p2 != p { NoneDue(w[p2], e); }
    if !(1 <= Remaining(e, now) < MAXDELAY) { NoneDue(w[p], e); NoneDue(w[p2], e); }
    match MovedAt(n2)
    case NoList =>
    case List(i, k) =>
      var from := Level(i, k);
      var rest := if p2 == from then [] else w[p2];
      DueConcat(rest, Placed(w[from], p2, n2), e);
      DueOfPlaced(w[from], p2, n2, e);
      if p != from { NoneDue(w[from], e); }
  }

  lemma DueList(list: seq<Node>, now: Tick)
    requires forall n | n in list :: Place(n.expire, now) == Near(now % 0x100)
    ensures Due(list, now) == list
  {
    forall n | n in list ensures n.expire == now { DueHere(n.expire, now); }
    AllDue(list, now);
  }

  lemma NotHere(expire: Tick, now: Tick)
    requires Place(expire, now) != Near(now % 0x100)
    ensures Remaining(expire, now) >= 1 && expire != now
  {
    DueHere(expire, now);
  }

  /** The near list under the clock is what is due, in order; taking it leaves the rest. */
  lemma FireHolds(w: Wheel, now: Tick, pending: seq<Node>)
    requires Holds(w, now, pending, 0)
    ensures w[Near(now % 0x100)] == Due(pending, now)
    ensures Holds(w[Near(now % 0x100) := []], now, Later(pending, now), 1)
  {
    var here := Near(now % 0x100);
    var w' := w[here := []];
    DueHere(now, now);
    hide Block, Remaining, Place;
    DueList(w[here], now);
    assert Due(w[Place(now, now)], now) == Due(pending, now);
    forall slot: Slot, n: Node | SlotOk(slot) && n in w'[slot]
      ensures Place(n.expire, now) == slot && 1 <= Remaining(n.expire, now) < MAXDELAY
    {
      assert n in w[slot];
      NotHere(n.expire, now);
    }
    forall e: Tick ensures Due(w'[Place(e, now)], e) == Due(Later(pending, now), e) {
      DueOfLater(pending, now, e);
      DueHere(e, now);
      assert Due(w[Place(e, now)], e) == Due(pending, e);
    }
  }

  // ----- the masks of `timer_shift` -----

  function Mask(i: nat): (m: int)
    ensures m > 0
  {
    if i == 0 then 0x100 else if i == 1 then 0x4000 else if i == 2 then 0x10_0000 else 0x400_0000
  }

  lemma FirstBlock(ct: Tick)
    ensures Block(0, ct) == ct / 0x100
  {
  }

  lemma MaskZero(ct: Tick, i: nat)
    requires i < 4 && ct % Mask(i) == 0
    ensures ct % 0x100 == 0
  {
  }

  lemma MaskTop(ct: Tick)
    requires ct != 0 && ct % Mask(3) == 0
    ensures Block(3, ct) % 64 != 0
  {
  }

  lemma MovedList(ct: Tick, i: nat)
    requires ct != 0 && i < 4 && ct % 0x100 == 0 && Block(i, ct) % 64 != 0
    requires forall j: nat | j < i :: Block(j, ct) % 64 == 0
    ensures MovedAt(ct) == List(i, Block(i, ct) % 64)
  {
    hide Block;
  }

  /** The loop ends without a list only when the low byte is not zero. */
  lemma NothingMoved(ct: Tick, i: nat)
    requires ct != 0 && i < 4 && ct % Mask(i) != 0
    requires forall j: nat | j < i :: Block(j, ct) % 64 == 0
    requires i > 0 ==> ct % Mask(i - 1) == 0
    ensures MovedAt(ct) == NoList
  {
    if i > 0 { MaskGrows(ct, i); }
  }

  lemma MaskGrows(ct: Tick, i: nat)
    requires 0 < i < 4 && ct % Mask(i - 1) == 0 && Block(i - 1, ct) % 64 == 0
    ensures ct % Mask(i) == 0
  {
    if i == 1 {
      MaskFirst(ct);
    } else if i == 2 {
      MaskSecond(ct);
    } else {
      MaskThird(ct);
    }
  }

  lemma MaskFirst(ct: nat)
    requires ct % 0x100 == 0 && (ct / 0x100) % 64 == 0
    ensures ct % 0x4000 == 0
  {
    var q := ct / 0x100;
    assert ct == 0x100 * q && q == 64 * (q / 64);
  }

  lemma MaskSecond(ct: nat)
    requires ct % 0x4000 == 0 && (ct / 0x4000) % 64 == 0
    ensures ct % 0x10_0000 == 0
  {
    var q := ct / 0x4000;
    assert ct == 0x4000 * q && q == 64 * (q / 64);
  }

  lemma MaskThird(ct: nat)
    requires ct % 0x10_0000 == 0 && (ct / 0x10_0000) % 64 == 0
    ensures ct % 0x400_0000 == 0
  {
    var q := ct / 0x10_0000;
    assert ct == 0x10_0000 * q && q == 64 * (q / 64);
  }

  // ----- the wheel at work -----

  class Timer {
    var near: array<seq<Node>>
    var t: array2<seq<Node>>
    var time: Tick
    ghost var pending: seq<Node>

    ghost predicate Shape()
      reads `near, `t
    {
      near.Length == TIME_NEAR && t.Length0 == 4 && t.Length1 == TIME_LEVEL
    }

    ghost function Lists(): (w: Wheel)
      requires Shape()
      reads `near, `t, near, t
      ensures Complete(w)
    {
      imap slot | SlotOk(slot) :: match slot case Near(k) => near[k] case Level(i, k) => t[i, k]
    }

    ghost predicate Valid()
      reads this, near, t
    {
      Shape() && Holds(Lists(), time, pending, 1)
    }

    constructor (start: Tick)
      ensures Valid() && fresh(near) && fresh(t) && pending == [] && time == start
    {
      near := new seq<Node>[TIME_NEAR](_ => []);
      t := new seq<Node>[4, TIME_LEVEL]((_, _) => []);
      time := start;
      pending := [];
    }

    /** `add_node` */
    method AddNode(node: Node)
      requires Shape()
      modifies near, t
      ensures Lists() == Linked(old(Lists()), time, node)
    {
      var expire, now := node.expire, time;
      if expire / 0x100 == now / 0x100 {
        near[expire % 0x100] := near[expire % 0x100] + [node];
      } else {
        var i := 0;
        var mask: int := 0x4000;
        while i < 3
          invariant 0 <= i <= 3
          invariant mask == if i == 0 then 0x4000 else if i == 1 then 0x10_0000 else if i == 2 then 0x400_0000
                    else 0x1_0000_0000
          invariant forall j: nat | 1 <= j <= i :: Block(j, expire) != Block(j, now)
        {
          if expire / mask == now / mask { break; }
          mask := mask * 64;
          i := i + 1;
        }
        var k := Block(i, expire) % 64;
        t[i, k] := t[i, k] + [node];
        assert Place(expire, now) == Level(i, k);
      }
    }

    /** `timer_add` */
    method TimerAdd(id: nat, delay: nat)
      requires Valid() && 1 <= delay < MAXDELAY
      modifies this`pending, near, t
      ensures Valid() && pending == Added(old(pending), time, id, delay)
    {
      hide Block, Place, Holds, Due;
      AddHolds(Lists(), time, pending, id, delay);
      var node := Node(id, (time + delay) % CLOCK);
      AddNode(node);
      pending := Added(pending, time, id, delay);
    }

    /** `move_list` */
    method MoveList(level: nat, idx: nat)
      requires Shape() && level < 4 && idx < TIME_LEVEL && MovedAt(time) == List(level, idx)
      modifies near, t
      ensures Lists() == Shifted(old(Lists()), time)
    {
      hide Block, Place, MovedAt, Spread, Linked, Shifted;
      var current := t[level, idx];
      ghost var w, from := Lists(), Level(level, idx);
      ShiftedList(w, time, level, idx);
      t[level, idx] := [];
      SpreadNothing(w, from, time);
      assert current[..0] == [];
      var k := 0;
      while k < |current|
        invariant 0 <= k <= |current|
        invariant Lists() == Spread(w, from, current[..k], time)
      {
        SpreadStep(w, from, current, k, time);
        AddNode(current[k]);
        k := k + 1;
      }
      assert current[..k] == current;
    }

    /** `timer_shift`: advance the clock and take apart the one list that this makes due. */
    method TimerShift()
      requires Shape()
      modifies `time, near, t
      ensures time == Next(old(time)) && Lists() == Shifted(old(Lists()), time)
    {
      hide Block, Place;
      time := Next(time);
      if time == 0 {
        MoveList(3, 0);
      } else {
        var m := FindMoved(time);
        if m.List? { MoveList(m.i, m.k); }
      }
    }

    /** `timer_execute`: dispatch what is due. The lock is released while the timers of the list
        taken are sent; `during` are the requests other threads make in that time. */
    method TimerExecute(during: Requests) returns (fired: seq<Node>)
      requires Shape() && Holds(Lists(), time, pending, 0) && DelaysOk(during)
      modifies `pending, near, t
      ensures Valid()
      ensures fired == Due(old(pending), time)
      ensures pending == if fired == [] then old(pending) else AllAdded(Later(old(pending), time), time, during)
    {
      hide Block, Place, Holds;
      var idx := time % 0x100;
      FireHolds(Lists(), time, pending);
      fired := near[idx];
      if fired == [] {
        NothingDue(pending, time);
        assert Lists()[Near(idx) := []] == Lists();
        return;
      }
      near[idx] := [];
      pending := Later(pending, time);
      assert Lists() == old(Lists())[Near(idx) := []];
      AddAll(during);
      // the loop looks again, and finds nothing: no new timer is due in this tick
      HoldsWeaker(Lists(), time, pending);
      FireHolds(Lists(), time, pending);
      NoneLeft(Lists(), time, pending);
      assert near[idx] == [];
    }

    method AddAll(rs: Requests)
      requires Valid() && DelaysOk(rs)
      modifies `pending, near, t
      ensures Valid() && pending == AllAdded(old(pending), time, rs)
    {
      hide Block, Place, Holds, Due;
      var k := 0;
      while k < |rs|
        invariant 0 <= k <= |rs| && Valid() && pending == AllAdded(old(pending), time, rs[..k])
      {
        assert rs[k] in rs;
        AllAddedSnoc(old(pending), time, rs, k);
        TimerAdd(rs[k].0, rs[k].1);
        k := k + 1;
      }
      assert rs[..k] == rs;
    }

    /** `timer_update`: one tick. The execute before the shift finds nothing, for a timer with a
        positive delay is never due in the tick it is added. */
    method TimerUpdate(during: Requests) returns (fired: seq<Node>)
      requires Valid() && DelaysOk(during)
      modifies `pending, `time, near, t
      ensures Valid() && time == Next(old(time))
      ensures fired == Due(old(pending), time)
      ensures pending == if fired == [] then old(pending) else AllAdded(Later(old(pending), time), time, during)
    {
      hide Block, Place, Holds, Due, Later;
      HoldsWeaker(Lists(), time, pending);
      NoneLeft(Lists(), time, pending);
      var none := TimerExecute([]);
      assert none == [];
      ShiftHolds(Lists(), time, pending);
      TimerShift();
      fired := TimerExecute(during);
    }

    ghost function Value(): State
      reads `time, `pending
    {
      State(time, pending)
    }

    method Do(op: Op) returns (fired: seq<Node>)
      requires Valid() && OpOk(op)
      modifies `pending, `time, near, t
      ensures Valid() && Value() == Apply(old(Value()), op) && fired == Fired(old(Value()), op)
    {
      hide Holds, Due, Later, Next;
      match op
      case Add(id, delay) =>
        TimerAdd(id, delay);
        fired := [];
      case Update(during) =>
        fired := TimerUpdate(during);
    }

    /** Any run of the wheel. */
    method Run(ops: seq<Op>) returns (fired: seq<seq<Node>>)
      requires Valid() && forall op | op in ops :: OpOk(op)
      modifies `pending, `time, near, t
      ensures Valid() && Value() == After(old(Value()), ops) && |fired| == |ops|
      ensures forall k | 0 <= k < |ops| :: fired[k] == Fired(After(old(Value()), ops[..k]), ops[k])
    {
      hide Holds, Apply, Fired, OpOk;
      ghost var st := Value();
      fired := [];
      var i := 0;
      while i < |ops|
        invariant 0 <= i <= |ops| && Valid() && Value() == After(st, ops[..i]) && |fired| == i
        invariant forall k | 0 <= k < i :: fired[k] == Fired(After(st, ops[..k]), ops[k])
      {
        assert ops[i] in ops;
        AfterSnoc(st, ops, i);
        var f := Do(ops[i]);
        fired := fired + [f];
        i := i + 1;
      }
      assert ops[..i] == ops;
    }

    /** A timer added to the wheel with delay `d`, whatever is pending and whatever follows: the d-th
        update fires it, once, and no other update does. */
    method AddAndRun(id: nat, d: nat, ops: seq<Op>) returns (fired: seq<seq<Node>>)
      requires Valid() && 1 <= d < MAXDELAY && forall n | n in pending :: n.id != id
      requires forall op | op in ops :: OpOk(op) && !Mentions(op, id)
      modifies `pending, `time, near, t
      ensures Valid() && Value() == After(Apply(old(Value()), Add(id, d)), ops) && |fired| == |ops|
      ensures forall k | 0 <= k < |ops| && ops[k].Update? ::
        multiset(fired[k])[Node(id, (old(time) + d) % CLOCK)] == if Ticks(ops[..k + 1]) == d then 1 else 0
    {
      hide Holds, Fired, After, Apply, Mentions, Ticks;
      ghost var st := Value();
      var none := Do(Add(id, d));
      fired := Run(ops);
      forall k | 0 <= k < |ops| && ops[k].Update?
        ensures multiset(fired[k])[Node(id, (st.now + d) % CLOCK)] == if Ticks(ops[..k + 1]) == d then 1 else 0
      {
        AddedFires(st, id, d, ops, k);
      }
    }
  }

  /** The search of `timer_shift` for the list to take apart. */
  method FindMoved(ct: Tick) returns (m: Moved)
    requires ct != 0
    ensures m == MovedAt(ct)
  {
    hide Block, MovedAt;
    Nested(ct);
    FirstBlock(ct);
    var mask: int := 0x100;
    var rest := ct / 0x100;
    var i := 0;
    while ct % mask == 0
      invariant 0 <= i <= 3 && rest == Block(i, ct) && mask == Mask(i)
      invariant i > 0 ==> ct % Mask(i - 1) == 0
      invariant forall j: nat | j < i :: Block(j, ct) % 64 == 0
      decreases 4 - i
    {
      var idx := rest % 64;
      MaskZero(ct, i);
      if idx != 0 {
        MovedList(ct, i);
        return List(i, idx);
      }
      if i == 3 { MaskTop(ct); }
      mask := mask * 64;
      rest := rest / 64;
      i := i + 1;
    }
    NothingMoved(ct, i);
    return NoList;
  }

  lemma HoldsWeaker(w: Wheel, now: Tick, pending: seq<Node>)
    requires Holds(w, now, pending, 1)
    ensures Holds(w, now, pending, 0)
  {
  }

  lemma NoneLeft(w: Wheel, now: Tick, pending: seq<Node>)
    requires Holds(w, now, pending, 1)
    ensures Due(pending, now) == [] && w[Near(now % 0x100)] == []
  {
    hide Block, Place;
    DueHere(now, now);
    var here := w[Near(now % 0x100)];
    assert Due(here, now) == Due(pending, now);
    DueList(here, now);
  }

  lemma {:induction false} NothingDue(list: seq<Node>, e: Tick)
    requires Due(list, e) == []
    ensures Later(list, e) == list
    decreases list
  {
    if list != [] { NothingDue(list[1..], e); }
  }

  // ----- whole runs -----

  datatype State = State(now: Tick, pending: seq<Node>)

  datatype Op = Add(id: nat, delay: nat) | Update(during: Requests)

  predicate OpOk(op: Op)
  {
    match op
    case Add(_, delay) => 1 <= delay < MAXDELAY
    case Update(during) => DelaysOk(during)
  }

  /** What `Timer.Do` is proved to do. */
  function Apply(st: State, op: Op): State
  {
    match op
    case Add(id, delay) => State(st.now, Added(st.pending, st.now, id, delay))
    case Update(during) =>
      var now := Next(st.now);
      if Due(st.pending, now) == [] then State(now, st.pending)
      else State(now, AllAdded(Later(st.pending, now), now, during))
  }

  function Fired(st: State, op: Op): seq<Node>
  {
    if op.Update? then Due(st.pending, Next(st.now)) else []
  }

  function After(st: State, ops: seq<Op>): State
    decreases ops
  {
    if ops == [] then st else After(Apply(st, ops[0]), ops[1..])
  }

  function Ticks(ops: seq<Op>): nat
  {
    if ops == [] then 0 else (if ops[0].Update? then 1 else 0) + Ticks(ops[1..])
  }

  predicate Mentions(op: Op, id: nat)
  {
    match op
    case Add(i, _) => i == id
    case Update(during) => exists r :: r in during && r.0 == id
  }

  /** Every timer of the list is either due or kept, as often as it is there. */
  lemma {:induction false} DueOrLater(list: seq<Node>, e: Tick, n: Node)
    ensures multiset(Due(list, e))[n] == if n.expire == e then multiset(list)[n] else 0
    ensures multiset(Later(list, e))[n] == if n.expire == e then 0 else multiset(list)[n]
    decreases list
  {
    if list != [] {
      DueOrLater(list[1..], e, n);
      assert list == [list[0]] + list[1..];
    }
  }

  lemma {:induction false} AllAddedCount(pending: seq<Node>, now: Tick, rs: Requests, n: Node)
    requires forall r | r in rs :: r.0 != n.id
    ensures multiset(AllAdded(pending, now, rs))[n] == multiset(pending)[n]
    decreases rs
  {
    if rs != [] {
      assert rs[0] in rs && forall r | r in rs[1..] :: r in rs;
      AllAddedCount(Added(pending, now, rs[0].0, rs[0].1), now, rs[1..], n);
    }
  }

  /** How one operation treats one timer. */
  lemma {:induction false} OneOp(st: State, op: Op, n: Node)
    requires !Mentions(op, n.id)
    ensures var due := op.Update? && n.expire == Next(st.now);
      && multiset(Fired(st, op))[n] == (if due then multiset(st.pending)[n] else 0)
      && multiset(Apply(st, op).pending)[n] == (if due then 0 else multiset(st.pending)[n])
  {
    match op
    case Add(_, _) =>
    case Update(during) =>
      var now := Next(st.now);
      DueOrLater(st.pending, now, n);
      AllAddedCount(Later(st.pending, now), now, during, n);
  }

  lemma {:induction false} NeverAgain(st: State, ops: seq<Op>, n: Node, k: nat)
    requires n !in st.pending && k < |ops| && forall op | op in ops :: !Mentions(op, n.id)
    ensures n !in Fired(After(st, ops[..k]), ops[k])
    decreases ops
  {
    OneOp(st, ops[0], n);
    assert n !in multiset(Apply(st, ops[0]).pending);
    if k > 0 {
      assert ops[..k][1..] == ops[1..][..k - 1];
      NeverAgain(Apply(st, ops[0]), ops[1..], n, k - 1);
    }
  }

  /** Main theorem: in every run, whatever is added meanwhile and wherever the clock wraps, a pending
      timer is dispatched in exactly the update that its remaining delay counts, as often as it is
      pending. */
  lemma {:induction false} FiresExactly(st: State, ops: seq<Op>, n: Node, k: nat)
    requires Remaining(n.expire, st.now) >= 1
    requires forall op | op in ops :: OpOk(op) && !Mentions(op, n.id)
    requires k < |ops| && ops[k].Update?
    ensures multiset(Fired(After(st, ops[..k]), ops[k]))[n]
            == if Ticks(ops[..k + 1]) == Remaining(n.expire, st.now) then multiset(st.pending)[n] else 0
    decreases ops
  {
    hide Remaining, Next, After, Ticks, Apply, Fired;
    var st1 := Apply(st, ops[0]);
    OneOp(st, ops[0], n);
    OneTickLess(n.expire, st.now);
    ApplyClock(st, ops[0]);
    DueIffNoneLeft(n.expire, Next(st.now));
    FirstApplied(st, ops, k);
    if k > 0 {
      if ops[0].Update? && n.expire == Next(st.now) {
        assert n !in multiset(st1.pending);
        NeverAgain(st1, ops[1..], n, k - 1);
        TicksLast(ops[1..], k - 1);
      } else {
        FiresExactly(st1, ops[1..], n, k - 1);
      }
    }
  }

  lemma {:induction false} ApplyClock(st: State, op: Op)
    ensures Apply(st, op).now == if op.Update? then Next(st.now) else st.now
  {
  }

  /** The first operation, apart from those behind it. */
  lemma {:induction false} FirstApplied(st: State, ops: seq<Op>, k: nat)
    requires k < |ops|
    ensures After(st, ops[..k]) == if k == 0 then st else After(Apply(st, ops[0]), ops[1..][..k - 1])
    ensures Ticks(ops[..k + 1]) == (if ops[0].Update? then 1 else 0)
                                   + (if k == 0 then 0 else Ticks(ops[1..][..k - 1 + 1]))
  {
    assert ops[..k + 1][1..] == ops[1..][..k];
    if k > 0 {
      assert ops[..k][1..] == ops[1..][..k - 1];
      assert ops[1..][..k - 1 + 1] == ops[1..][..k];
    } else {
      assert Ticks([]) == 0;
    }
  }

  lemma DueIffNoneLeft(expire: Tick, now: Tick)
    ensures expire == now <==> Remaining(expire, now) == 0
  {
  }

  lemma {:induction false} TicksLast(ops: seq<Op>, k: nat)
    requires k < |ops| && ops[k].Update?
    ensures Ticks(ops[..k + 1]) >= 1
    decreases ops
  {
    if k > 0 {
      assert ops[..k + 1][1..] == ops[1..][..k];
      TicksLast(ops[1..], k - 1);
    }
  }

  /** A timer added with delay `d` fires in the d-th following update, and in no other. */
  lemma AddedFires(st: State, id: nat, d: nat, ops: seq<Op>, k: nat)
    requires 1 <= d < MAXDELAY && forall op | op in ops :: OpOk(op) && !Mentions(op, id)
    requires k < |ops| && ops[k].Update? && forall n | n in st.pending :: n.id != id
    ensures var n := Node(id, (st.now + d) % CLOCK);
      multiset(Fired(After(Apply(st, Add(id, d)), ops[..k]), ops[k]))[n] == if Ticks(ops[..k + 1]) == d then 1 else 0
  {
    NewRemaining(st.now, d);
    var n := Node(id, (st.now + d) % CLOCK);
    assert multiset(st.pending)[n] == 0;
    hide Remaining, Due, Fired;
    FiresExactly(Apply(st, Add(id, d)), ops, n, k);
  }

  lemma NewRemaining(now: Tick, d: nat)
    requires d < MAXDELAY
    ensures Remaining((now + d) % CLOCK, now) == d
  {
  }

  lemma {:induction false} AfterSnoc(st: State, ops: seq<Op>, k: nat)
    requires k < |ops|
    ensures After(st, ops[..k + 1]) == Apply(After(st, ops[..k]), ops[k])
    decreases ops
  {
    hide Apply;
    if k == 0 {
      assert ops[..1][1..] == [] && ops[..0] == [];
    } else {
      assert ops[..k + 1][1..] == ops[1..][..k - 1 + 1] && ops[..k][1..] == ops[1..][..k - 1];
      AfterSnoc(Apply(st, ops[0]), ops[1..], k - 1);
    }
  }
}
