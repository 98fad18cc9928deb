/** The TCP send path of socket_server.c for one socket: two lists of buffers, the direct write of a
    worker under `dw_lock`, the control pipe, and writes that take any part of what they are given.
    A send buffer is a plain block of bytes. */
module SocketSend {

  import opened Basics

  /** A request is high or low; a package that a worker writes itself is neither. */
  datatype Priority = High | Low | Direct

  datatype Package = Package(data: seq<Byte>, priority: Priority)

  /** A package of which the first `ptr` bytes are written. */
  datatype WriteBuffer = WriteBuffer(package: Package, ptr: nat)

  datatype State = Connecting | Connected | HalfClose | Invalid

  /** What a call of `write` comes back with. */
  datatype Outcome = Wrote(n: nat) | Interrupted | WouldBlock | Failed

  /** A worker on its second check: what it wants to write, and how many accesses it has passed. */
  datatype Check = Check(package: Package, passed: nat)

  /** A step of a worker or of the socket thread. */
  datatype Event =
    | Announcing
    | Submitting(p: Package)
    | Locking(data: seq<Byte>)
    | Checking
    | WritingDirect(o: Outcome)
    | LeavingDirect
    | Receiving
    | Settling
    | Establishing
    | Sending(os: seq<Outcome>)
    | Closing(shutdown: bool, os: seq<Outcome>)
    | Breaking
    | Finishing

  // ----- the bytes of packages and lists -----

  function Data(ps: seq<Package>): seq<Byte>
  {
    if ps == [] then [] else Data(ps[..|ps| - 1]) + ps[|ps| - 1].data
  }

  function Packages(l: seq<WriteBuffer>): (ps: seq<Package>)
    ensures |ps| == |l| && forall i | 0 <= i < |l| :: ps[i] == l[i].package
  {
    seq(|l|, i requires 0 <= i < |l| => l[i].package)
  }

  /** The bytes not yet written. */
  function Left(l: seq<WriteBuffer>): int
  {
    if l == [] then 0 else |l[0].package.data| - l[0].ptr + Left(l[1..])
  }

  /** The packages of one priority, in order. */
  function Of(ps: seq<Package>, p: Priority): seq<Package>
  {
    if ps == [] then []
    else if ps[|ps| - 1].priority == p then Of(ps[..|ps| - 1], p) + [ps[|ps| - 1]]
    else Of(ps[..|ps| - 1], p)
  }

  /** What is written of the first package of a list. */
  function Started(l: seq<WriteBuffer>): seq<Byte>
  {
    if l == [] || l[0].ptr > |l[0].package.data| then [] else l[0].package.data[..l[0].ptr]
  }

  function List(o: Option<WriteBuffer>): seq<WriteBuffer>
  {
    if o.None? then [] else [o.value]
  }

  function Joined(direct: Option<WriteBuffer>, dw: Option<WriteBuffer>, high: seq<WriteBuffer>,
                  low: seq<WriteBuffer>): seq<WriteBuffer>
  {
    List(direct) + List(dw) + high + low
  }

  lemma {:induction false} JoinedKept(direct: Option<WriteBuffer>, dw: Option<WriteBuffer>, high: seq<WriteBuffer>,
                                      low: seq<WriteBuffer>)
    ensures Joined(direct, dw, high, low) == List(direct) + List(dw) + (high + low)
    ensures high == low == [] ==> Joined(direct, dw, high, low) == List(direct) + List(dw)
    ensures direct.None? ==> List(direct) + List(dw) == List(dw)
    ensures direct.None? && dw.None? ==> Joined(direct, dw, high, low) == high + low
    ensures direct.Some? && dw.None? ==> Joined(direct, dw, high, low) == [direct.value] + (high + low)
  {
  }

  lemma {:induction false} JoinedIdle(high: seq<WriteBuffer>, low: seq<WriteBuffer>)
    ensures Joined(None, None, high, low) == high + low
    ensures high == [] ==> Joined(None, None, high, low) == low
    ensures low == [] ==> Joined(None, None, high, low) == high
  {
  }

  /** Only the first buffer may be written in part. */
  predicate OneStarted(l: seq<WriteBuffer>)
  {
    && (forall i | 0 <= i < |l| :: l[i].ptr <= |l[i].package.data|)
    && (forall i | 0 < i < |l| :: l[i].ptr == 0)
  }

  predicate Whole(l: seq<WriteBuffer>)
  {
    forall i | 0 <= i < |l| :: l[i].ptr == 0
  }

  predicate AllLow(l: seq<WriteBuffer>)
  {
    forall i | 0 <= i < |l| :: l[i].package.priority == Low
  }

  predicate NoDirects(ps: seq<Package>)
  {
    forall i | 0 <= i < |ps| :: ps[i].priority != Direct
  }

  function Min(a: nat, b: nat): (r: nat)
    ensures r <= a && r <= b
  {
    if a <= b then a else b
  }

  /** The bytes that `write` takes of a buffer. */
  function TakenFrom(b: WriteBuffer, n: nat): seq<Byte>
  {
    if b.ptr + n <= |b.package.data| then b.package.data[b.ptr..b.ptr + n] else []
  }

  /** What is left of a list when `write` comes back with these outcomes, and what it has taken: it goes
      on until an outcome is a part, would block or fails. */
  datatype Progress = Progress(list: seq<WriteBuffer>, rest: seq<Outcome>, failed: bool, bytes: seq<Byte>)

  function Written(l: seq<WriteBuffer>, os: seq<Outcome>): Progress
    decreases |os|
  {
    if l == [] || os == [] then Progress(l, os, false, [])
    else
      match os[0]
      case Interrupted => Written(l, os[1..])
      case WouldBlock => Progress(l, os[1..], false, [])
      case Failed => Progress(l, os[1..], true, [])
      case Wrote(n) =>
        var left := |l[0].package.data| - l[0].ptr;
        if n < left then Progress(Advanced(l, n), os[1..], false, TakenFrom(l[0], n))
        else if left < 0 then Progress(l, os[1..], true, [])
        else var w := Written(l[1..], os[1..]); w.(bytes := TakenFrom(l[0], left) + w.bytes)
  }

  /** One outcome of `write`. */
  lemma {:induction false} WrittenOnce(l: seq<WriteBuffer>, os: seq<Outcome>)
    requires l != [] && l[0].ptr <= |l[0].package.data|
    ensures os == [] ==> Written(l, os) == Progress(l, os, false, [])
    ensures os != [] && os[0].Interrupted? ==> Written(l, os) == Written(l, os[1..])
    ensures os != [] && os[0].WouldBlock? ==> Written(l, os) == Progress(l, os[1..], false, [])
    ensures os != [] && os[0].Failed? ==> Written(l, os) == Progress(l, os[1..], true, [])
    ensures os != [] && os[0].Wrote? ==>
      var left := |l[0].package.data| - l[0].ptr;
      if os[0].n < left then Written(l, os) == Progress(Advanced(l, os[0].n), os[1..], false, TakenFrom(l[0], os[0].n))
      else var w := Written(l[1..], os[1..]); Written(l, os) == w.(bytes := TakenFrom(l[0], left) + w.bytes)
  {
  }

  /** One turn of the socket thread: the high list, then the low one; a package half sent goes high. */
  datatype Turn = Turn(high: seq<WriteBuffer>, low: seq<WriteBuffer>, closed: bool, bytes: seq<Byte>)

  function TurnOf(high: seq<WriteBuffer>, low: seq<WriteBuffer>, closing: bool, os: seq<Outcome>): Turn
  {
    var h := Written(high, os);
    if h.failed then Turn([], [], true, h.bytes)
    else if h.list != [] then Turn(h.list, low, false, h.bytes)
    else
      var l := Written(low, h.rest);
      var bytes := h.bytes + l.bytes;
      if l.failed then Turn([], [], true, bytes)
      else if l.list == [] then Turn([], [], closing, bytes)
      else if l.list[0].ptr != 0 then Turn([l.list[0]], l.list[1..], false, bytes)
      else Turn([], l.list, false, bytes)
  }

  /** What the checks passed so far mean as long as the lock is held: the lists grow only by whole
      requests, and no rest of a direct write appears. */
  predicate Checked(c: Check, high: seq<WriteBuffer>, dw: Option<WriteBuffer>)
  {
    && c.package.priority == Direct && c.passed <= 4
    && (c.passed >= 1 ==> Whole(high) && NoDirects(Packages(high)))
    && (c.passed >= 3 ==> dw.None?)
  }

  /** How the lists, the direct write, its rest, the check and the state go together. */
  predicate Shape(high: seq<WriteBuffer>, low: seq<WriteBuffer>, dw: Option<WriteBuffer>, direct: Option<WriteBuffer>,
                  checking: Option<Check>, state: State, waiting: bool)
  {
    && AllLow(low)
    && (direct.Some? ==> checking.None? && dw.None? && (state == Connected || state == HalfClose) && Whole(low))
    && (dw.Some? || direct.Some? ==> Whole(high))
    && (checking.Some? ==> Whole(low) && Checked(checking.value, high, dw))
    && (waiting ==> state != Invalid && high == low == [])
    && (state == Invalid ==> direct.None? && dw.None? && high == low == [])
  }

  lemma {:induction false} ShapeEmpty(dw: Option<WriteBuffer>, direct: Option<WriteBuffer>, checking: Option<Check>,
                                      state: State, high: seq<WriteBuffer>, low: seq<WriteBuffer>)
    requires Shape(high, low, dw, direct, checking, state, false) && state != Invalid
    ensures Shape([], [], dw, direct, checking, state, true) && (direct.None? || dw.None?)
    ensures checking.None? ==> Shape([], [], None, None, None, Invalid, false)
    ensures Whole([])
  {
  }

  lemma {:induction false} ShapeTook(isHigh: bool, high: seq<WriteBuffer>, low: seq<WriteBuffer>, n: nat, state: State)
    requires Shape(high, low, None, None, None, state, false) && state != Invalid
             && (if isHigh then high else low) != []
    ensures isHigh ==> Shape(high[1..], low, None, None, None, state, false)
                       && Shape(Advanced(high, n), low, None, None, None, state, false)
    ensures !isHigh ==> Shape(high, low[1..], None, None, None, state, false)
                        && Shape(high, Advanced(low, n), None, None, None, state, false)
  {
  }

  lemma {:induction false} AdvancedBehind(l: seq<WriteBuffer>, behind: seq<WriteBuffer>, n: nat)
    requires l != []
    ensures var m := l + behind; m[0] == l[0] && m[1..] == l[1..] + behind && Advanced(m, n) == Advanced(l, n) + behind
  {
  }

  /** Requests of one priority are written in the order they were submitted, each once, and so are
      direct writes. */
  predicate InOrder(accepting: bool, order: seq<Package>, pipe: seq<Package>, submitted: seq<Package>)
  {
    forall p :: if accepting then Of(order, p) + Of(pipe, p) == Of(submitted, p) else Of(order, p) <= Of(submitted, p)
  }

  /** What holds of a socket that takes packages holds after it stops. */
  lemma {:induction false} InOrderCut(accepting: bool, order: seq<Package>, pipe: seq<Package>, submitted: seq<Package>)
    requires InOrder(accepting, order, pipe, submitted)
    ensures InOrder(false, order, pipe, submitted)
  {
  }

  lemma {:induction false} NothingYet()
    ensures OpenWire([], [], [], []) && forall accepting :: InOrder(accepting, [], [], [])
    ensures Left([]) == 0 && NoDirects([])
  {
  }

  /** The stream of an open socket: what is written, and what is still to be. */
  predicate OpenWire(sent: seq<Package>, front: seq<WriteBuffer>, order: seq<Package>, wire: seq<Byte>)
  {
    OneStarted(front) && wire == Data(sent) + Started(front) && sent + Packages(front) == order
  }

  /** The stream of a socket that closes: whole packages, what was written of the one that was first in
      the lists when they were freed, and direct writes behind that. */
  predicate ClosingWire(sent: seq<Package>, cut: Option<WriteBuffer>, lates: seq<Package>, tail: seq<WriteBuffer>,
                        order: seq<Package>, wire: seq<Byte>)
  {
    && OneStarted(List(cut)) && sent + Packages(List(cut)) <= order && OneStarted(tail)
    && wire == Data(sent) + Started(List(cut)) + Data(lates) + Started(tail)
  }

  lemma {:induction false} ClosingStarts(sent: seq<Package>, cut: Option<WriteBuffer>, lates: seq<Package>,
                                         order: seq<Package>, wire: seq<Byte>, p: Package)
    requires ClosingWire(sent, cut, lates, [], order, wire)
    ensures ClosingWire(sent, cut, lates, [WriteBuffer(p, 0)], order, wire)
  {
  }

  lemma {:induction false} ClosingWrites(sent: seq<Package>, cut: Option<WriteBuffer>, lates: seq<Package>,
                                         order: seq<Package>, wire: seq<Byte>, p: Package, n: nat)
    requires ClosingWire(sent, cut, lates, [WriteBuffer(p, 0)], order, wire) && n <= |p.data|
    ensures ClosingWire(sent, cut, lates, [WriteBuffer(p, n)], order, wire + p.data[..n])
  {
    StartedNow(Data(sent) + Started(List(cut)) + Data(lates), p, [], n);
    assert [WriteBuffer(p, 0)] + [] == [WriteBuffer(p, 0)] && [WriteBuffer(p, n)] + [] == [WriteBuffer(p, n)];
  }

  lemma {:induction false} ClosingEnds(sent: seq<Package>, cut: Option<WriteBuffer>, lates: seq<Package>,
                                       order: seq<Package>, wire: seq<Byte>, b: WriteBuffer)
    requires ClosingWire(sent, cut, lates, [b], order, wire) && b.ptr == |b.package.data|
    ensures ClosingWire(sent, cut, lates + [b.package], [], order, wire)
  {
    DataSnoc(lates, b.package);
    AppendTo(Data(sent) + Started(List(cut)), Data(lates), b.package.data);
  }

  /** `write` takes n bytes of the first buffer, all or some. */
  lemma {:induction false} OpenTook(sent: seq<Package>, l: seq<WriteBuffer>, order: seq<Package>, wire: seq<Byte>,
                                    n: nat)
    requires OpenWire(sent, l, order, wire) && l != [] && n <= |l[0].package.data| - l[0].ptr
    ensures var more := wire + TakenFrom(l[0], n);
      if n == |l[0].package.data| - l[0].ptr then OpenWire(sent + [l[0].package], l[1..], order, more)
      else OpenWire(sent, Advanced(l, n), order, more)
  {
    hide Data, Packages, Started, OneStarted;
    var b := l[0];
    if n == |b.package.data| - b.ptr {
      WriteAll(sent, l);
      StartedAll(Data(sent), l);
      DataSnoc(sent, b.package);
      assert b.package.data[b.ptr..b.ptr + n] == b.package.data[b.ptr..];
    } else {
      WriteSome(l, n);
      StartedSome(Data(sent), l, n);
    }
  }

  /** A worker writes. */
  lemma {:induction false} OpenWrites(sent: seq<Package>, p: Package, l: seq<WriteBuffer>, order: seq<Package>,
                                      wire: seq<Byte>, n: nat)
    requires OpenWire(sent, [WriteBuffer(p, 0)] + l, order, wire) && n <= |p.data|
    ensures OpenWire(sent, [WriteBuffer(p, n)] + l, order, wire + p.data[..n])
  {
    hide Data, Packages, Started, OneStarted;
    StartedNow(Data(sent), p, l, n);
  }

  /** A direct write that is complete. */
  lemma {:induction false} OpenEnds(sent: seq<Package>, l: seq<WriteBuffer>, order: seq<Package>, wire: seq<Byte>)
    requires OpenWire(sent, l, order, wire) && l != [] && l[0].ptr == |l[0].package.data|
    ensures OpenWire(sent + [l[0].package], l[1..], order, wire)
  {
    hide Data, Packages, Started, OneStarted;
    FirstDone(sent, l);
  }

  /** A request takes its place. */
  lemma {:induction false} OpenInserts(sent: seq<Package>, x: seq<WriteBuffer>, y: seq<WriteBuffer>, p: Package,
                                       order: seq<Package>, wire: seq<Byte>)
    requires OpenWire(sent, x + y, order, wire) && Whole(y)
    ensures OpenWire(sent, x + [WriteBuffer(p, 0)] + y, sent + Packages(x) + [p] + Packages(y), wire)
    ensures order == sent + Packages(x) + Packages(y)
  {
    hide Data, Packages, Started, OneStarted;
    Insert(sent, x, y, p);
  }

  /** A worker starts. */
  lemma {:induction false} OpenStarts(sent: seq<Package>, l: seq<WriteBuffer>, order: seq<Package>, wire: seq<Byte>,
                                      p: Package)
    requires OpenWire(sent, l, order, wire) && Whole(l)
    ensures OpenWire(sent, [WriteBuffer(p, 0)] + l, sent + [p] + Packages(l), wire)
  {
    hide Data, Packages, OneStarted, Started;
    DirectFirst(sent, p, l);
  }

  lemma {:induction false} OpenBounds(sent: seq<Package>, l: seq<WriteBuffer>, order: seq<Package>, wire: seq<Byte>)
    requires OpenWire(sent, l, order, wire)
    ensures forall i | 0 <= i < |l| :: l[i].ptr <= |l[i].package.data| && (i > 0 ==> l[i].ptr == 0)
    ensures l == [] ==> sent == order && wire == Data(sent)
    ensures wire <= Data(order) && sent <= order
  {
    StartedIsPrefix(sent, l, order);
    hide Data, Packages;
    NothingLeft(sent, l);
  }

  lemma {:induction false} OpenOrder(sent: seq<Package>, l: seq<WriteBuffer>, order: seq<Package>, wire: seq<Byte>)
    requires OpenWire(sent, l, order, wire)
    ensures order == sent + Packages(l)
  {
  }

  lemma {:induction false} ClosingBounds(sent: seq<Package>, cut: Option<WriteBuffer>, lates: seq<Package>,
                                         tail: seq<WriteBuffer>, order: seq<Package>, wire: seq<Byte>)
    requires ClosingWire(sent, cut, lates, tail, order, wire)
    ensures forall i | 0 <= i < |tail| :: tail[i].ptr <= |tail[i].package.data|
  {
  }

  /** The lists go; a direct write, or the rest of one, stays. */
  lemma {:induction false} FreeLists(sent: seq<Package>, order: seq<Package>, wire: seq<Byte>, kept: seq<WriteBuffer>,
                                     lists: seq<WriteBuffer>)
    requires OpenWire(sent, kept + lists, order, wire) && |kept| <= 1
    ensures ClosingWire(sent, if kept == [] then First(lists) else None, [], kept, order, wire)
  {
    hide Data, Packages, Started, OneStarted;
    var front := kept + lists;
    NothingCut(sent, order, kept);
    if kept != [] {
      assert front == [kept[0]] + lists && kept == [kept[0]];
      KeepFirst(kept[0], lists, sent, order, front);
    } else if lists != [] {
      assert front == lists && lists == [lists[0]] + lists[1..];
      KeepFirst(lists[0], lists[1..], sent, order, front);
    } else {
      assert front == [];
    }
  }

  /** All that holds when the lists are freed. */
  lemma {:induction false} Freed(sent: seq<Package>, order: seq<Package>, wire: seq<Byte>, direct: Option<WriteBuffer>,
                                 dw: Option<WriteBuffer>, high: seq<WriteBuffer>, low: seq<WriteBuffer>,
                                 accepting: bool, pipe: seq<Package>, submitted: seq<Package>,
                                 checking: Option<Check>, state: State)
    requires OpenWire(sent, Joined(direct, dw, high, low), order, wire) && InOrder(accepting, order, pipe, submitted)
    requires Shape(high, low, dw, direct, checking, state, false) && state != Invalid
    ensures var cut := if direct.None? && dw.None? then First(high + low) else None;
            var kept := Joined(direct, dw, [], []);
      && ClosingWire(sent, cut, [], kept, order, wire) && !TornAt(cut, [], kept)
      && (direct.None? ==> kept == List(dw))
    ensures InOrder(false, order, pipe, submitted) && Shape([], [], dw, direct, checking, state, true) && Whole([])
    ensures checking.None? ==> Shape([], [], None, None, None, Invalid, false)
    ensures Joined(None, None, [], []) == []
  {
    hide OpenWire, ClosingWire, InOrder, Shape, TornAt, First, Joined;
    JoinedKept(direct, dw, high, low);
    JoinedKept(direct, dw, [], []);
    JoinedIdle([], []);
    ShapeEmpty(dw, direct, checking, state, high, low);
    FreeLists(sent, order, wire, List(direct) + List(dw), high + low);
    InOrderCut(accepting, order, pipe, submitted);
    NotTornYet(if direct.None? && dw.None? then First(high + low) else None, List(direct) + List(dw));
  }

  lemma {:induction false} NothingCut(sent: seq<Package>, order: seq<Package>, kept: seq<WriteBuffer>)
    ensures sent + Packages([]) == sent && OneStarted([]) && Started([]) == [] && Data([]) == []
    ensures Data(sent) + [] + [] + Started(kept) == Data(sent) + Started(kept)
    ensures forall b :: Data(sent) + Started([b]) + [] + [] == Data(sent) + Started([b])
  {
    forall b ensures Data(sent) + Started([b]) + [] + [] == Data(sent) + Started([b]) {
      assert Data(sent) + Started([b]) + [] == Data(sent) + Started([b]);
    }
  }

  function First(l: seq<WriteBuffer>): Option<WriteBuffer> { if l == [] then None else Some(l[0]) }

  /** A direct write has come behind a package that was written in part. */
  predicate TornAt(cut: Option<WriteBuffer>, lates: seq<Package>, tail: seq<WriteBuffer>)
  {
    cut.Some? && cut.value.ptr > 0 && (Data(lates) != [] || Started(tail) != [])
  }

  /** The first bytes of a direct write tear the stream. */
  lemma {:induction false} TornByBytes(cut: Option<WriteBuffer>, lates: seq<Package>, p: Package, n: nat)
    requires n <= |p.data|
    ensures TornAt(cut, lates, [WriteBuffer(p, n)])
            <==> TornAt(cut, lates, []) || (cut.Some? && cut.value.ptr > 0 && n > 0)
  {
    hide Data;
    assert |p.data[..n]| == n;
  }

  /** Its end changes nothing. */
  lemma {:induction false} TornAtEnd(cut: Option<WriteBuffer>, lates: seq<Package>, b: WriteBuffer)
    requires b.ptr == |b.package.data|
    ensures TornAt(cut, lates + [b.package], []) <==> TornAt(cut, lates, [b])
  {
    DataSnoc(lates, b.package);
    hide Data;
    assert |b.package.data[..b.ptr]| == b.ptr;
  }

  lemma {:induction false} TornParts(cut: Option<WriteBuffer>, lates: seq<Package>, tail: seq<WriteBuffer>)
    requires TornAt(cut, lates, tail)
    ensures cut.Some? && cut.value.ptr > 0
  {
  }

  lemma {:induction false} NotTornYet(cut: Option<WriteBuffer>, tail: seq<WriteBuffer>)
    requires cut.None? || tail == []
    ensures !TornAt(cut, [], tail)
  {
  }

  /** What a torn stream is: a prefix of whole packages as before only if the bytes that came behind the
      part of a package happen to be those that it had left. */
  lemma {:induction false} TornMeans(sent: seq<Package>, cut: Option<WriteBuffer>, lates: seq<Package>,
                                     tail: seq<WriteBuffer>, order: seq<Package>, wire: seq<Byte>)
    requires ClosingWire(sent, cut, lates, tail, order, wire) && cut.Some? && cut.value.ptr > 0
    ensures var b := cut.value;
      && b.ptr <= |b.package.data|
      && (wire <= Data(sent + [b.package]) <==> Data(lates) + Started(tail) <= b.package.data[b.ptr..])
  {
    hide Data, Packages, Started, OneStarted;
    var b := cut.value;
    var behind := Data(lates) + Started(tail);
    CutBounds(b);
    DataSnoc(sent, b.package);
    TornBytes(Data(sent), b.package.data[..b.ptr], Data(lates), Started(tail), b.package.data[b.ptr..]);
    assert b.package.data == b.package.data[..b.ptr] + b.package.data[b.ptr..];
  }

  lemma {:induction false} CutBounds(b: WriteBuffer)
    ensures OneStarted([b]) ==> b.ptr <= |b.package.data| && Started([b]) == b.package.data[..b.ptr]
    ensures List(Some(b)) == [b]
  {
  }

  lemma {:induction false} TornBytes(sent: seq<Byte>, part: seq<Byte>, lates: seq<Byte>, tail: seq<Byte>,
                                     rest: seq<Byte>)
    ensures sent + part + lates + tail <= sent + (part + rest) <==> lates + tail <= rest
  {
    assert sent + part + lates + tail == (sent + part) + (lates + tail);
    assert sent + (part + rest) == (sent + part) + rest;
    PrefixBehind(sent + part, lates + tail, rest);
  }

  lemma {:induction false} PrefixBehind(a: seq<Byte>, b: seq<Byte>, c: seq<Byte>)
    ensures a + b <= a + c <==> b <= c
  {
    if a + b <= a + c {
      assert b == (a + b)[|a|..] && c == (a + c)[|a|..];
      assert (a + c)[..|a + b|] == a + b;
      assert c[..|b|] == (a + c)[|a|..|a| + |b|];
    }
    if b <= c { assert a + c == a + b + c[|b|..]; }
  }

  /** Packages that the stream is a prefix of, unless it is torn. */
  function Wholes(sent: seq<Package>, cut: Option<WriteBuffer>, lates: seq<Package>,
                  tail: seq<WriteBuffer>): seq<Package>
  {
    if cut.Some? && cut.value.ptr > 0 then sent + [cut.value.package] else sent + lates + Packages(tail)
  }

  lemma {:induction false} ClosingPrefix(sent: seq<Package>, cut: Option<WriteBuffer>, lates: seq<Package>,
                                         tail: seq<WriteBuffer>, order: seq<Package>, wire: seq<Byte>)
    requires ClosingWire(sent, cut, lates, tail, order, wire) && !TornAt(cut, lates, tail)
    ensures wire <= Data(Wholes(sent, cut, lates, tail))
  {
    if cut.Some? && cut.value.ptr > 0 {
      var b := cut.value;
      assert Started([b]) == b.package.data[..b.ptr];
      hide Data, Packages, OneStarted, Started;
      DataSnoc(sent, b.package);
      assert wire == Data(sent) + b.package.data[..b.ptr];
    } else {
      assert Started(List(cut)) == [];
      hide Data, Packages, OneStarted, Started;
      assert Data(sent) + [] == Data(sent);
      DataConcat(sent, lates);
      StartedIsPrefix(sent + lates, tail, sent + lates + Packages(tail));
    }
  }

  lemma {:induction false} DataSnoc(ps: seq<Package>, p: Package)
    ensures Data(ps + [p]) == Data(ps) + p.data
  {
    assert (ps + [p])[..|ps|] == ps;
  }

  lemma {:induction false} DataConcat(ps: seq<Package>, qs: seq<Package>)
    ensures Data(ps + qs) == Data(ps) + Data(qs)
    decreases |qs|
  {
    if qs == [] {
      assert ps + qs == ps;
    } else {
      var n := |qs| - 1;
      DataConcat(ps, qs[..n]);
      assert (ps + qs)[..|ps| + n] == ps + qs[..n];
      assert Data(ps) + (Data(qs[..n]) + qs[n].data) == Data(ps) + Data(qs[..n]) + qs[n].data;
    }
  }

  lemma {:induction false} OfSnoc(ps: seq<Package>, q: Package, p: Priority)
    ensures Of(ps + [q], p) == if q.priority == p then Of(ps, p) + [q] else Of(ps, p)
  {
    assert (ps + [q])[..|ps|] == ps;
  }

  lemma {:induction false} OfConcat(ps: seq<Package>, qs: seq<Package>, p: Priority)
    ensures Of(ps + qs, p) == Of(ps, p) + Of(qs, p)
    decreases |qs|
  {
    if qs == [] {
      assert ps + qs == ps;
    } else {
      var n := |qs| - 1;
      OfConcat(ps, qs[..n], p);
      assert (ps + qs)[..|ps| + n] == ps + qs[..n];
    }
  }

  lemma {:induction false} LeftConcat(l: seq<WriteBuffer>, m: seq<WriteBuffer>)
    ensures Left(l + m) == Left(l) + Left(m)
    decreases |l|
  {
    if l == [] {
      assert l + m == m;
    } else {
      LeftConcat(l[1..], m);
      assert (l + m)[1..] == l[1..] + m;
    }
  }

  lemma {:induction false} LeftEmpty()
    ensures Left([]) == 0
  {
  }

  lemma {:induction false} LeftOne(b: WriteBuffer)
    ensures Left([b]) == |b.package.data| - b.ptr
  {
    assert [b][1..] == [];
  }

  /** The packages with the started one begin with what is written. */
  lemma {:induction false} StartedIsPrefix(sent: seq<Package>, l: seq<WriteBuffer>, order: seq<Package>)
    requires OneStarted(l) && sent + Packages(l) <= order
    ensures Data(sent) + Started(l) <= Data(order)
  {
    var rest := order[|sent|..];
    assert order == sent + rest;
    DataConcat(sent, rest);
    if l != [] {
      assert rest[0] == order[|sent|] == (sent + Packages(l))[|sent|] == l[0].package;
      DataFirst(rest);
      PrefixOf(Data(sent), Started(l), l[0].package.data, Data(rest[1..]));
    }
  }

  lemma {:induction false} DataFirst(ps: seq<Package>)
    requires ps != []
    ensures Data(ps) == ps[0].data + Data(ps[1..])
  {
    assert ps == [ps[0]] + ps[1..];
    DataConcat([ps[0]], ps[1..]);
    DataSnoc([], ps[0]);
    assert [] + [ps[0]] == [ps[0]];
  }

  lemma {:induction false} PrefixOf(a: seq<Byte>, b: seq<Byte>, c: seq<Byte>, d: seq<Byte>)
    requires b <= c
    ensures a + b <= a + (c + d)
  {
  }

  lemma {:induction false} AppendTo(d: seq<Byte>, a: seq<Byte>, b: seq<Byte>)
    ensures d + a + b == d + (a + b)
  {
  }

  function Advanced(l: seq<WriteBuffer>, n: nat): seq<WriteBuffer>
    requires l != []
  {
    [WriteBuffer(l[0].package, l[0].ptr + n)] + l[1..]
  }

  /** Part of the first buffer is written. */
  lemma {:induction false} WriteSome(l: seq<WriteBuffer>, n: nat)
    requires l != [] && OneStarted(l) && l[0].ptr + n <= |l[0].package.data|
    ensures OneStarted(Advanced(l, n)) && Packages(Advanced(l, n)) == Packages(l)
    ensures Left(Advanced(l, n)) == Left(l) - n
  {
    assert Advanced(l, n)[1..] == l[1..];
  }

  lemma {:induction false} LeftTook(l: seq<WriteBuffer>, behind: seq<WriteBuffer>, n: nat)
    requires l != [] && n <= |l[0].package.data| - l[0].ptr
    ensures Left(Advanced(l, n)) + Left(behind) == Left(l) + Left(behind) - n && Left([]) == 0
    ensures n == |l[0].package.data| - l[0].ptr ==> Left(l[1..]) + Left(behind) == Left(l) + Left(behind) - n
  {
    assert Advanced(l, n)[1..] == l[1..];
  }

  lemma {:induction false} StartedSome(d: seq<Byte>, l: seq<WriteBuffer>, n: nat)
    requires l != [] && l[0].ptr + n <= |l[0].package.data|
    ensures d + Started(l) + l[0].package.data[l[0].ptr..l[0].ptr + n] == d + Started(Advanced(l, n))
  {
    var data, i := l[0].package.data, l[0].ptr;
    assert data[..i] + data[i..i + n] == data[..i + n];
    AppendTo(d, data[..i], data[i..i + n]);
  }

  lemma {:induction false} StartedNow(d: seq<Byte>, p: Package, l: seq<WriteBuffer>, n: nat)
    requires n <= |p.data|
    ensures d + Started([WriteBuffer(p, 0)] + l) + p.data[..n] == d + Started([WriteBuffer(p, n)] + l)
    ensures OneStarted([WriteBuffer(p, 0)] + l) ==> OneStarted([WriteBuffer(p, n)] + l)
    ensures Packages([WriteBuffer(p, n)] + l) == Packages([WriteBuffer(p, 0)] + l)
  {
    var m := [WriteBuffer(p, 0)] + l;
    assert Advanced(m, n) == [WriteBuffer(p, n)] + l && p.data[0..n] == p.data[..n];
    StartedSome(d, m, n);
    if OneStarted(m) { WriteSome(m, n); }
    assert Packages(Advanced(m, n)) == Packages(m);
  }

  /** The rest of the first buffer is written. */
  lemma {:induction false} WriteAll(sent: seq<Package>, l: seq<WriteBuffer>)
    requires l != [] && OneStarted(l)
    ensures OneStarted(l[1..]) && Whole(l[1..])
    ensures sent + [l[0].package] + Packages(l[1..]) == sent + Packages(l)
    ensures Left(l[1..]) == Left(l) - (|l[0].package.data| - l[0].ptr)
  {
    PackagesFirst(l);
  }

  lemma {:induction false} StartedAll(d: seq<Byte>, l: seq<WriteBuffer>)
    requires l != [] && OneStarted(l)
    ensures d + Started(l) + l[0].package.data[l[0].ptr..] == d + l[0].package.data + Started(l[1..])
  {
    var data, i := l[0].package.data, l[0].ptr;
    assert Started(l) == data[..i] && Started(l[1..]) == [];
    hide Started, OneStarted;
    TakeRest(d, data, i);
  }

  lemma {:induction false} TakeRest(d: seq<Byte>, data: seq<Byte>, i: nat)
    requires i <= |data|
    ensures d + data[..i] + data[i..] == d + data + []
  {
    assert data[..i] + data[i..] == data;
    AppendTo(d, data[..i], data[i..]);
  }

  lemma {:induction false} PackagesFirst(l: seq<WriteBuffer>)
    requires l != []
    ensures Packages(l) == [l[0].package] + Packages(l[1..])
  {
  }

  lemma {:induction false} JoinedSplit(direct: Option<WriteBuffer>, dw: Option<WriteBuffer>, high: seq<WriteBuffer>,
                                       low: seq<WriteBuffer>, toHigh: bool)
    ensures Joined(direct, dw, high, low)
         == List(direct) + List(dw) + high + (if toHigh then [] else low) + (if toHigh then low else [])
  {
  }

  lemma {:induction false} JoinedInsert(direct: Option<WriteBuffer>, dw: Option<WriteBuffer>, high: seq<WriteBuffer>,
                                        low: seq<WriteBuffer>, toHigh: bool, b: WriteBuffer)
    ensures (if toHigh then Joined(direct, dw, high + [b], low) else Joined(direct, dw, high, low + [b]))
         == List(direct) + List(dw) + high + (if toHigh then [] else low) + [b] + (if toHigh then low else [])
  {
  }

  /** The package is put in front of the last ones, which stay, and behind all others. */
  predicate PutBefore(order: seq<Package>, order': seq<Package>, p: Package, last: seq<Package>)
  {
    |last| <= |order| && order == order[..|order| - |last|] + last
    && order' == order[..|order| - |last|] + [p] + last
  }

  lemma {:induction false} PutIn(x: seq<Package>, p: Package, y: seq<Package>, order: seq<Package>)
    requires order == x + y
    ensures PutBefore(order, x + [p] + y, p, y)
  {
  }

  /** A package put before whole ones. */
  lemma {:induction false} Insert(sent: seq<Package>, x: seq<WriteBuffer>, y: seq<WriteBuffer>, p: Package)
    requires OneStarted(x + y) && Whole(y)
    ensures var m := x + [WriteBuffer(p, 0)] + y;
            OneStarted(m) && Started(m) == Started(x + y)
              && sent + Packages(m) == sent + Packages(x) + [p] + Packages(y)
    ensures sent + Packages(x + y) == sent + Packages(x) + Packages(y)
  {
    var m := x + [WriteBuffer(p, 0)] + y;
    assert Packages(m) == Packages(x) + [p] + Packages(y);
    assert Packages(x + y) == Packages(x) + Packages(y);
    InsertShape(x, y, p);
  }

  lemma {:induction false} InsertShape(x: seq<WriteBuffer>, y: seq<WriteBuffer>, p: Package)
    requires OneStarted(x + y) && Whole(y)
    ensures var m := x + [WriteBuffer(p, 0)] + y; OneStarted(m) && Started(m) == Started(x + y)
  {
    var l, m, n := x + y, x + [WriteBuffer(p, 0)] + y, |x|;
    forall i | 0 <= i < |m| ensures m[i].ptr <= |m[i].package.data| && (i > 0 ==> m[i].ptr == 0) {
      if i < n {
        assert m[i] == l[i];
      } else if i > n {
        assert m[i] == l[i - 1] == y[i - 1 - n];
      }
    }
    if n > 0 {
      assert m[0] == l[0];
    } else if y != [] {
      assert l[0] == y[0];
    }
  }

  lemma {:induction false} OfLows(y: seq<WriteBuffer>)
    requires AllLow(y)
    ensures Of(Packages(y), High) == []
    decreases |y|
  {
    if y != [] {
      var n := |y| - 1;
      OfLows(y[..n]);
      assert Packages(y)[..n] == Packages(y[..n]);
    }
  }

  /** A package taken from the pipe takes its place among those of its priority. */
  lemma {:induction false} AppendKeepsFifo(order: seq<Package>, submitted: seq<Package>, p: Package, pipe: seq<Package>,
                                           a: seq<Package>, y: seq<WriteBuffer>)
    requires order == a + Packages(y) && (y == [] || (p.priority == High && AllLow(y)))
    requires forall q :: Of(order, q) + Of([p] + pipe, q) == Of(submitted, q)
    ensures forall q :: Of(a + [p] + Packages(y), q) + Of(pipe, q) == Of(submitted, q)
  {
    if y != [] { OfLows(y); }
    forall q ensures Of(a + [p] + Packages(y), q) + Of(pipe, q) == Of(submitted, q) {
      var b := Packages(y);
      OfConcat(a + [p], b, q);
      OfConcat(a, [p], q);
      OfConcat(a, b, q);
      OfConcat([p], pipe, q);
      OfSnoc([], p, q);
      assert [] + [p] == [p];
      assert Of([], q) == [];
      Swap(Of(a, q), Of([p], q), Of(b, q), Of(pipe, q));
    }
  }

  lemma {:induction false} Swap(a: seq<Package>, p: seq<Package>, b: seq<Package>, c: seq<Package>)
    requires p == [] || b == []
    ensures a + p + b + c == a + b + (p + c)
  {
  }

  lemma {:induction false} LeftSnoc(l: seq<WriteBuffer>, p: Package)
    ensures Left(l + [WriteBuffer(p, 0)]) == Left(l) + |p.data|
  {
    LeftConcat(l, [WriteBuffer(p, 0)]);
    LeftOne(WriteBuffer(p, 0));
  }

  lemma {:induction false} WholeSnoc(l: seq<WriteBuffer>, p: Package)
    ensures Whole(l) ==> Whole(l + [WriteBuffer(p, 0)])
    ensures AllLow(l) && p.priority == Low ==> AllLow(l + [WriteBuffer(p, 0)])
  {
  }

  lemma {:induction false} WholeNone()
    ensures Whole([]) && AllLow([])
  {
  }

  /** A first buffer of which nothing is left counts as sent. */
  lemma {:induction false} FirstDone(sent: seq<Package>, l: seq<WriteBuffer>)
    requires l != [] && OneStarted(l) && l[0].ptr == |l[0].package.data|
    ensures OneStarted(l[1..]) && sent + [l[0].package] + Packages(l[1..]) == sent + Packages(l)
    ensures Data(sent) + Started(l) == Data(sent + [l[0].package]) + Started(l[1..])
  {
    var data := l[0].package.data;
    WriteAll(sent, l);
    StartedAll(Data(sent), l);
    DataSnoc(sent, l[0].package);
    hide Data, Started;
    assert Data(sent) + Started(l) + data[|data|..] == Data(sent) + Started(l);
  }

  class Socket {
    var high: seq<WriteBuffer>
    var low: seq<WriteBuffer>
    var wbSize: int
    var state: State
    /** `dw_buffer`, `dw_size` and `dw_offset` */
    var dw: Option<WriteBuffer>
    /** The worker that holds `dw_lock`: on its second check, or writing, with what it has written. */
    var checking: Option<Check>
    var direct: Option<WriteBuffer>
    /** The socket thread has freed the lists and waits for `dw_lock` to close the socket. */
    var waiting: bool
    /** Requests in the control pipe, and workers that have raised `sending` but not written theirs. */
    var pipe: seq<Package>
    var announced: nat
    /** A request was taken from the pipe and `sending` is not lowered yet. */
    var settling: bool
    var sending: nat

    /** The bytes given to the kernel. */
    var wire: seq<Byte>
    /** Packages in the order they were handed over, those wholly written, and the order of writing. */
    ghost var submitted: seq<Package>
    ghost var sent: seq<Package>
    ghost var order: seq<Package>
    /** Of a socket that closes: the first buffer of the freed lists, the packages that workers wrote
        after that, and the rest of a direct write freed at the end. */
    ghost var cut: Option<WriteBuffer>
    ghost var lates: seq<Package>
    ghost var rest: Option<WriteBuffer>

    /** Everything on its way, in the order it will be written. */
    function Front(): seq<WriteBuffer>
      reads `direct, `dw, `high, `low
    {
      Joined(direct, dw, high, low)
    }

    /** A worker holds `dw_lock`. */
    predicate Locked()
      reads this
    {
      direct.Some? || checking.Some?
    }

    ghost predicate Accepting()
      reads `state, `waiting
    {
      (state == Connecting || state == Connected) && !waiting
    }

    ghost predicate Valid()
      reads this
    {
      Sound() && Whole(low)
    }

    /** All of `Valid` but that the first low buffer may be written in part. */
    ghost predicate Sound()
      reads this
    {
      && Shape(high, low, dw, direct, checking, state, waiting)
      && (if Closing() then ClosingWire(sent, cut, lates, Tail(), order, wire) else Streaming() && Balanced())
      && Counted() && Fifo()
    }

    /** What is written, and what is still to be. */
    ghost predicate Streaming()
      reads `direct, `dw, `high, `low, `sent, `order, `wire
    {
      OpenWire(sent, Front(), order, wire)
    }

    /** `wb_size` is what the lists hold. */
    ghost predicate Balanced()
      reads `high, `low, `wbSize
    {
      wbSize == Left(high) + Left(low)
    }

    /** `sending` counts the requests on their way. */
    ghost predicate Counted()
      reads `sending, `announced, `pipe, `settling
    {
      sending == announced + |pipe| + (if settling then 1 else 0) && NoDirects(pipe)
    }

    predicate Closing()
      reads `state, `waiting
    {
      waiting || state == Invalid
    }

    ghost function Tail(): seq<WriteBuffer>
      reads `state, `rest, `direct, `dw, `high, `low
    {
      if state == Invalid then List(rest) else Front()
    }

    ghost predicate Fifo()
      reads `state, `waiting, `order, `pipe, `submitted
    {
      InOrder(Accepting(), order, pipe, submitted)
    }

    constructor (connected: bool)
      ensures Valid() && wire == [] && submitted == []
      ensures high == low == [] && dw.None? && !Locked() && !waiting && pipe == [] && sending == announced == 0
              && !settling
      ensures state == if connected then Connected else Connecting
    {
      hide Joined, OpenWire, ClosingWire, Left, InOrder, NoDirects, Packages, Data, Of;
      high, low, wbSize := [], [], 0;
      state := if connected then Connected else Connecting;
      dw, direct, checking, waiting := None, None, None, false;
      pipe, announced, settling, sending := [], 0, false, 0;
      wire, submitted, sent, order := [], [], [], [];
      cut, lates, rest := None, [], None;
      new;
      NothingYet();
      JoinedIdle(high, low);
    }

    ghost predicate Torn()
      reads `state, `waiting, `rest, `direct, `dw, `high, `low, `cut, `lates
    {
      Closing() && TornAt(cut, lates, Tail())
    }

    /** The step that tears the stream: a worker puts bytes on the wire while a close waits for its lock,
        and that close has freed a package of which a part was written. */
    ghost predicate Tears(e: Event)
      reads this
    {
      && e.WritingDirect? && e.o.Wrote? && direct.Some? && direct.value.ptr == 0
      && Min(e.o.n, |direct.value.package.data|) > 0
      && waiting && cut.Some? && cut.value.ptr > 0
    }

    /** The safety of the stream: what was written is a prefix of whole packages, none interleaved or
        repeated, in the order submitted within a priority; with nothing on its way it is all of them.
        The exception is a direct write that comes behind a package of which a part was written when
        a close freed it; then the bytes behind that part are not those of the package, unless they
        happen to be the same. */
    lemma WholePackages()
      requires Valid()
      ensures !Closing() ==> wire <= Data(order)
      ensures Closing() && !Torn() ==> wire <= Data(Wholes(sent, cut, lates, Tail()))
      ensures Torn() ==> cut.Some? && cut.value.ptr <= |cut.value.package.data|
      ensures Torn() ==> (wire <= Data(sent + [cut.value.package])
                          <==> Data(lates) + Started(Tail()) <= cut.value.package.data[cut.value.ptr..])
      ensures Closing() ==> ClosingWire(sent, cut, lates, Tail(), order, wire)
      ensures sent <= order && forall p :: Of(order, p) <= Of(submitted, p)
      ensures Accepting() && Front() == [] ==> wire == Data(order)
      ensures Accepting() ==> forall p :: Of(order, p) + Of(pipe, p) == Of(submitted, p)
    {
      hide OpenWire, ClosingWire, Balanced, Counted, Data, Of, Packages, Started, TornAt;
      if Closing() {
        if !Torn() {
          ClosingPrefix(sent, cut, lates, Tail(), order, wire);
        } else {
          TornParts(cut, lates, Tail());
          TornMeans(sent, cut, lates, Tail(), order, wire);
        }
        ClosingSent(sent, cut, lates, Tail(), order, wire);
      } else {
        OpenBounds(sent, Front(), order, wire);
      }
    }

    // ----- the socket thread -----

    ghost predicate Open()
      reads `state, `waiting
    {
      state != Invalid && !waiting
    }

    function ListOf(isHigh: bool): seq<WriteBuffer>
      reads this
    {
      if isHigh then high else low
    }

    /** `write` took n bytes of the first buffer of a list. */
    method TookBytes(isHigh: bool, n: nat) returns (done: bool)
      requires Sound() && Open() && !Locked() && dw.None? && ListOf(isHigh) != [] && (isHigh || high == [])
      requires n <= |ListOf(isHigh)[0].package.data| - ListOf(isHigh)[0].ptr
      modifies `high, `low, `wire, `wbSize, `sent
      ensures Sound()
      ensures if isHigh then low == old(low) else high == []
      ensures done <==> n == |old(ListOf(isHigh))[0].package.data| - old(ListOf(isHigh))[0].ptr
      ensures ListOf(isHigh) == if done then old(ListOf(isHigh))[1..] else Advanced(old(ListOf(isHigh)), n)
      ensures wire == old(wire) + TakenFrom(old(ListOf(isHigh))[0], n)
    {
      hide Data, Packages, Started, Left, OneStarted, Joined, OpenWire, ClosingWire, Fifo, Counted, TakenFrom, Shape,
        Advanced;
      var list := ListOf(isHigh);
      ghost var behind := if isHigh then low else [];
      ghost var l := list + behind;
      JoinedIdle(high, low);
      assert Front() == l;
      OpenTook(sent, l, order, wire, n);
      LeftTook(list, behind, n);
      ShapeTook(isHigh, high, low, n, state);
      var tmp := list[0];
      AdvancedBehind(list, behind, n);
      wire := wire + TakenFrom(tmp, n);
      wbSize := wbSize - n;
      done := n == |tmp.package.data| - tmp.ptr;
      list := if done then list[1..] else Advanced(list, n);
      if done {
        sent := sent + [tmp.package];
      }
      if isHigh { high := list; } else { low := list; }
      JoinedIdle(high, low);
      assert Front() == list + behind;
    }

    /** `send_list_tcp`, against what each `write` comes back with; a socket that takes no more
        bytes would block. */
    method SendListTcp(isHigh: bool, outcomes: seq<Outcome>) returns (closed: bool, rest: seq<Outcome>)
      requires Sound() && Open() && !Locked() && dw.None? && (isHigh || high == [])
      modifies `high, `low, `wire, `wbSize, `sent, `state, `waiting, `dw, `cut, `lates, `rest
      ensures Sound() && old(wire) <= wire && dw.None? && !waiting && !Torn()
      ensures closed <==> state == Invalid
      ensures !closed ==> state == old(state) && if isHigh then low == old(low) else high == []
      ensures var w := Written(old(ListOf(isHigh)), outcomes);
              && closed == w.failed && rest == w.rest && wire == old(wire) + w.bytes
              && (if closed then high == low == [] else ListOf(isHigh) == w.list)
    {
      hide Sound, TakenFrom, Written, TornAt, Advanced;
      rest, closed := outcomes, false;
      while ListOf(isHigh) != []
        invariant Sound() && dw.None? && !waiting && state == old(state) && !closed && old(wire) <= wire
        invariant if isHigh then low == old(low) else high == []
        invariant var (w, v) := (Written(ListOf(isHigh), rest), Written(old(ListOf(isHigh)), outcomes));
                  v == w.(bytes := v.bytes) && wire + w.bytes == old(wire) + v.bytes
        decreases |rest|, |ListOf(isHigh)|
      {
        FirstBounds(isHigh);
        WrittenOnce(ListOf(isHigh), rest);
        if rest == [] {
          return;
        }
        var o := rest[0];
        rest := rest[1..];
        if o.WouldBlock? {
          return;
        } else if o.Failed? {
          CloseLocked();
          closed := true;
          return;
        } else if o.Wrote? {
          var list := ListOf(isHigh);
          var sz := |list[0].package.data| - list[0].ptr;
          ghost var before := wire;
          var done := TookBytes(isHigh, if o.n <= sz then o.n else sz);
          if !done {
            return;
          }
          AppendTo(before, TakenFrom(list[0], sz), Written(list[1..], rest).bytes);
        }
      }
      WrittenNone(ListOf(isHigh), rest);
    }

    lemma {:induction false} FirstBounds(isHigh: bool)
      requires Sound() && Open() && !Locked() && dw.None? && ListOf(isHigh) != [] && (isHigh || high == [])
      ensures ListOf(isHigh)[0].ptr <= |ListOf(isHigh)[0].package.data|
    {
      hide Joined, OpenWire, ClosingWire, Balanced, Counted, Fifo, Shape;
      JoinedIdle(high, low);
      assert ListOf(isHigh)[0] == Front()[0];
      OpenBounds(sent, Front(), order, wire);
    }

    /** `force_close` by the socket thread with `dw_lock` in its hands. */
    method CloseLocked()
      requires Sound() && Open() && !Locked()
      modifies `high, `low, `waiting, `state, `dw, `cut, `lates, `rest
      ensures Valid() && high == low == [] && state == Invalid && dw.None? && !waiting && !Torn()
    {
      hide Valid, Sound, Torn;
      FreeAndWait();
      FinishClose();
    }

    /** `force_close` without the lock: the lists go first; then it waits for the lock. */
    method FreeAndWait()
      requires Sound() && Open()
      modifies `high, `low, `waiting, `cut, `lates
      ensures Valid() && high == low == [] && waiting && !Torn()
      ensures cut == if direct.Some? || dw.Some? then None else First(old(high) + old(low))
    {
      hide Shape, Joined, OpenWire, ClosingWire, Balanced, Counted, TornAt, InOrder, First;
      Freed(sent, order, wire, direct, dw, high, low, Accepting(), pipe, submitted, checking, state);
      cut, lates := if direct.None? && dw.None? then First(high + low) else None, [];
      high, low, waiting := [], [], true;
    }

    /** The end of `force_close`, when the lock is free. */
    method FinishClose()
      requires Valid() && waiting && !Locked()
      modifies `dw, `waiting, `state, `rest
      ensures Valid() && state == Invalid && dw.None? && !waiting && Torn() == old(Torn())
    {
      hide Joined, OpenWire, ClosingWire, Balanced, Counted, TornAt, InOrder;
      JoinedKept(direct, dw, high, low);
      rest := dw;
      dw, waiting, state := None, false, Invalid;
      JoinedIdle(high, low);
    }

    /** `raise_uncomplete` */
    method RaiseUncomplete()
      requires Sound() && Open() && !Locked() && dw.None? && high == [] && low != []
      modifies `high, `low
      ensures Valid()
      ensures high == [old(low)[0]] && low == old(low)[1..]
    {
      hide Joined, OpenWire, ClosingWire, Counted, Fifo, Left;
      JoinedIdle(high, low);
      OpenBounds(sent, Front(), order, wire);
      LeftConcat([low[0]], low[1..]);
      LeftEmpty();
      assert [low[0]] + low[1..] == low && [] + low == low;
      high, low := [low[0]], low[1..];
      JoinedIdle(high, low);
    }

    /** `send_buffer_` */
    method SendBothLists(outcomes: seq<Outcome>) returns (closed: bool)
      requires Valid() && Open() && !Locked() && dw.None?
      modifies `high, `low, `wire, `wbSize, `sent, `state, `waiting, `dw, `cut, `lates, `rest
      ensures Valid() && old(wire) <= wire && dw.None? && !waiting && !Torn()
      ensures state == if closed then Invalid else old(state)
      ensures var t := TurnOf(old(high), old(low), old(state == HalfClose), outcomes);
              t == Turn(high, low, closed, t.bytes) && wire == old(wire) + t.bytes
    {
      hide OpenWire, ClosingWire, Counted, Fifo, Written, TornAt, Joined;
      var rest;
      closed, rest := SendListTcp(true, outcomes);
      ghost var h := Written(old(high), outcomes);
      WrittenNone(old(low), h.rest);
      if closed || high != [] {
        return;
      }
      if low != [] {
        closed, rest := SendListTcp(false, rest);
        AppendTo(old(wire), h.bytes, Written(old(low), h.rest).bytes);
        if closed {
          return;
        }
        if low != [] && low[0].ptr != 0 {
          RaiseUncomplete();
          return;
        }
        if low != [] {
          JoinedIdle(high, low);
          OpenBounds(sent, Front(), order, wire);
          return;
        }
      }
      assert high == low == [] && wbSize == 0 by { LeftEmpty(); }
      if state == HalfClose {
        CloseLocked();
        closed := true;
      }
    }

    /** `send_buffer`: nothing while a worker has the lock; the rest of a direct write goes first. */
    method SendBuffer(outcomes: seq<Outcome>) returns (closed: bool)
      requires Valid() && Open()
      modifies `high, `low, `wire, `wbSize, `sent, `state, `waiting, `dw, `cut, `lates, `rest
      ensures Valid() && old(wire) <= wire && !waiting && !Torn()
      ensures state == if closed then Invalid else old(state)
      ensures if old(Locked()) then
                !closed && wire == old(wire) && high == old(high) && low == old(low) && dw == old(dw)
              else var t := TurnOf(List(old(dw)) + old(high), old(low), old(state == HalfClose), outcomes);
                   t == Turn(high, low, closed, t.bytes) && wire == old(wire) + t.bytes && dw.None?
    {
      hide Shape, OpenWire, ClosingWire, Balanced, Counted, Fifo, TurnOf, Joined, TornAt;
      if Locked() {
        return false;
      }
      if dw.Some? {
        TakeDirectRest();
      }
      assert high == List(old(dw)) + old(high);
      closed := SendBothLists(outcomes);
    }

    method TakeDirectRest()
      requires Valid() && Open() && !Locked() && dw.Some?
      modifies `high, `dw, `wbSize
      ensures Valid() && dw.None?
      ensures high == [old(dw).value] + old(high)
    {
      hide Joined, OpenWire, ClosingWire, Counted, Fifo, Left;
      JoinedKept(direct, dw, high, low);
      var buf := dw.value;
      OpenBounds(sent, Front(), order, wire);
      assert Front()[0] == buf;
      wbSize := wbSize + (|buf.package.data| - buf.ptr);
      LeftConcat([buf], high);
      LeftOne(buf);
      assert [buf] + high + low == [buf] + (high + low);
      high := [buf] + high;
      dw := None;
      JoinedIdle(high, low);
    }

    // ----- packages from the pipe -----

    /** All of `Valid`, with the request `p` taken from the pipe and in no list yet. */
    ghost predicate Received(p: Package)
      reads this
    {
      && Whole(low) && AllLow(low) && p.priority != Direct
      && (direct.Some? ==> checking.None? && dw.None? && (state == Connected || state == HalfClose))
      && (dw.Some? || direct.Some? ==> Whole(high))
      && (checking.Some? ==> Checked(checking.value, high, dw))
      && Streaming() && Balanced() && Counted()
      && forall q :: Of(order, q) + Of([p] + pipe, q) == Of(submitted, q)
    }

    /** The list that a request is appended to: a socket with nothing to write takes it as high,
        whatever its priority. */
    predicate GoesHigh(p: Package)
      reads this
    {
      (high == low == [] && state == Connected) || p.priority == High
    }

    /** `send_socket`, for the request taken from the pipe; a socket that is closing drops it. */
    method Receive()
      requires Valid() && Open() && pipe != [] && !settling
      modifies `high, `low, `wbSize, `pipe, `settling, `order
      ensures Valid() && wire == old(wire)
      ensures pipe == old(pipe)[1..] && settling
      ensures var p := old(pipe)[0];
              if old(state) == HalfClose then high == old(high) && low == old(low) && order == old(order)
              else if p.priority == High || (old(high) == [] && old(low) == [] && old(state) == Connected)
              then high == old(high) + [WriteBuffer(p, 0)] && low == old(low)
              else high == old(high) && low == old(low) + [WriteBuffer(p, 0)]
      ensures var p := old(pipe)[0];
              old(state) != HalfClose ==>
                PutBefore(old(order), order, p, if p.priority == High then Packages(old(low)) else [])
    {
      hide Joined, OpenWire, ClosingWire, Data, Of, Packages, AllLow, Whole, NoDirects, Left;
      var p := pipe[0];
      PipeFirst(pipe);
      assert pipe == [p] + pipe[1..];
      pipe, settling := pipe[1..], true;
      if state != HalfClose {
        Append(p);
      }
    }

    method Append(p: Package)
      requires Received(p) && Open() && state != HalfClose
      modifies `high, `low, `wbSize, `order
      ensures Valid()
      ensures if old(GoesHigh(p)) then high == old(high) + [WriteBuffer(p, 0)] && low == old(low)
              else high == old(high) && low == old(low) + [WriteBuffer(p, 0)]
      ensures PutBefore(old(order), order, p, if p.priority == High then Packages(old(low)) else [])
    {
      hide Joined, OpenWire, ClosingWire, Data, Of, Packages, AllLow, Whole, NoDirects, Left;
      var toHigh := GoesHigh(p);
      ghost var y := if toHigh then low else [];
      ghost var x := List(direct) + List(dw) + high + (if toHigh then [] else low);
      JoinedSplit(direct, dw, high, low, toHigh);
      WholeNone();
      OpenInserts(sent, x, y, p, order, wire);
      PutIn(sent + Packages(x), p, Packages(y), order);
      AppendKeepsFifo(order, submitted, p, pipe, sent + Packages(x), y);
      order := sent + Packages(x) + [p] + Packages(y);
      LeftSnoc(high, p);
      LeftSnoc(low, p);
      WholeSnoc(high, p);
      WholeSnoc(low, p);
      NoDirectsSnoc(high, p);
      wbSize := wbSize + |p.data|;
      if toHigh {
        high := high + [WriteBuffer(p, 0)];
      } else {
        low := low + [WriteBuffer(p, 0)];
      }
      JoinedInsert(direct, dw, old(high), old(low), toHigh, WriteBuffer(p, 0));
    }

    /** `dec_sending_ref`, after the request is dealt with; its count is never zero there. */
    method Settle()
      requires Valid() && settling
      modifies `settling, `sending
      ensures Valid() && !settling && old(sending) > 0 && sending == old(sending) - 1
    {
      hide Shape, Joined, OpenWire, ClosingWire, Balanced, Fifo, NoDirects;
      settling := false;
      sending := sending - 1;
    }

    // ----- the workers -----

    /** `can_direct_write` */
    predicate CanDirectWrite()
      reads this
    {
      NoMoreSendingData() && state == Connected
    }

    /** `inc_sending_ref`: a worker is about to put a request into the pipe; it waits at the limit. */
    method Announce()
      requires Valid()
      modifies `announced, `sending
      ensures Valid()
      ensures var d := if old(sending) < 0xffff then 1 else 0;
              sending == old(sending) + d && announced == old(announced) + d
    {
      hide Shape, Joined, OpenWire, ClosingWire, Balanced, Fifo, NoDirects;
      if sending < 0xffff {
        announced, sending := announced + 1, sending + 1;
      }
    }

    /** `send_request`: the package is in the pipe. */
    method Submit(p: Package)
      requires Valid() && announced > 0 && p.priority != Direct
      modifies `announced, `pipe, `submitted
      ensures Valid() && submitted == old(submitted) + [p] && pipe == old(pipe) + [p] && announced == old(announced) - 1
    {
      hide Shape, Joined, OpenWire, ClosingWire, Balanced, Of;
      announced := announced - 1;
      ghost var before := pipe;
      pipe := pipe + [p];
      submitted := submitted + [p];
      forall q ensures if Accepting() then Of(order, q) + Of(pipe, q) == Of(submitted, q)
        else Of(order, q) <= Of(submitted, q) {
        OfSnoc(before, p, q);
        OfSnoc(old(submitted), p, q);
      }
    }

    /** `socket_trylock` of a worker. The check before it is only a hint: by now all it has read may
        have changed, so a worker may come here at any time. */
    method TryLock(data: seq<Byte>) returns (ok: bool)
      requires Valid()
      modifies `checking
      ensures Valid() && ok == !old(Locked())
      ensures checking == if ok then Some(Check(Package(data, Direct), 0)) else old(checking)
    {
      hide Joined, OpenWire, ClosingWire, Balanced, Counted, Fifo;
      ok := !Locked();
      if ok {
        checking := Some(Check(Package(data, Direct), 0));
      }
    }

    /** The next access of `can_direct_write`: the two lists, `dw_buffer`, `sending` and the state. */
    predicate NextCheck()
      requires checking.Some?
      reads this
    {
      match checking.value.passed
      case 0 => high == []
      case 1 => low == []
      case 2 => dw.None?
      case 3 => sending == 0
      case _ => state == Connected
    }

    /** One access of the second check. The first that fails gives the lock back. */
    method CheckAccess() returns (pass: bool)
      requires Valid() && checking.Some? && checking.value.passed < 4
      modifies `checking
      ensures Valid() && pass == old(NextCheck())
      ensures checking == if pass then Some(Check(old(checking.value.package), old(checking.value.passed) + 1))
              else None
    {
      hide Packages, Joined, OpenWire, ClosingWire, Balanced, Counted, Fifo;
      pass := NextCheck();
      if pass {
        assert high == [] ==> NoDirects(Packages(high)) && Whole(high);
        checking := Some(Check(checking.value.package, checking.value.passed + 1));
      } else {
        checking := None;
      }
    }

    /** The last access of the second check: it starts the direct write. */
    method CheckState() returns (pass: bool)
      requires Valid() && checking.Some? && checking.value.passed >= 4
      modifies `checking, `direct, `order, `submitted
      ensures Valid() && checking.None? && pass == (state == Connected)
      ensures pass ==> direct == Some(WriteBuffer(old(checking.value.package), 0))
      ensures submitted == if pass then old(submitted) + [old(checking.value.package)] else old(submitted)
      ensures !pass ==> direct.None?
      ensures Torn() == old(Torn())
    {
      hide Joined, OpenWire, ClosingWire, Balanced, Counted, Fifo, TornAt;
      pass := state == Connected;
      if !pass {
        checking := None;
      } else if waiting {
        StartLate();
      } else {
        StartDirect();
      }
    }

    /** All checks are passed: whatever is in the lists by now is whole, and goes behind. */
    method StartDirect()
      requires Valid() && checking.Some? && checking.value.passed == 4 && state == Connected && !waiting
      modifies `checking, `direct, `order, `submitted
      ensures Valid() && checking.None? && direct == Some(WriteBuffer(old(checking).value.package, 0))
      ensures submitted == old(submitted) + [old(checking).value.package]
    {
      hide Joined, OpenWire, ClosingWire, Balanced, Of, Packages, NoDirects;
      var p := checking.value.package;
      JoinedKept(direct, dw, high, low);
      ghost var rest := high + low;
      OpenStarts(sent, rest, order, wire, p);
      OpenOrder(sent, rest, order, wire);
      StartFifo(sent, p, high, low, pipe, submitted);
      checking, direct := None, Some(WriteBuffer(p, 0));
      order := sent + [p] + Packages(rest);
      submitted := submitted + [p];
      JoinedKept(direct, dw, high, low);
      assert List(direct) + List(dw) == [WriteBuffer(p, 0)];
    }

    /** All checks are passed, for the close that waits has emptied the lists. */
    method StartLate()
      requires Valid() && checking.Some? && checking.value.passed == 4 && state == Connected && waiting
      modifies `checking, `direct, `submitted
      ensures Valid() && checking.None? && direct == Some(WriteBuffer(old(checking).value.package, 0))
      ensures submitted == old(submitted) + [old(checking).value.package] && Torn() == old(Torn())
    {
      hide Joined, OpenWire, ClosingWire, Balanced, Counted, TornAt, Of;
      var p := checking.value.package;
      JoinedKept(direct, dw, high, low);
      assert Front() == [];
      ClosingStarts(sent, cut, lates, order, wire, p);
      TornByBytes(cut, lates, p, 0);
      checking, direct := None, Some(WriteBuffer(p, 0));
      forall q ensures Of(order, q) <= Of(submitted + [p], q) { OfSnoc(submitted, p, q); }
      submitted := submitted + [p];
      JoinedKept(direct, dw, high, low);
      assert Front() == [WriteBuffer(p, 0)];
    }

    /** The `write` of a worker; an error counts as nothing written. */
    method DirectWrite(o: Outcome)
      requires Valid() && direct.Some? && direct.value.ptr == 0
      modifies `direct, `wire
      ensures Valid() && (Torn() <==> old(Torn() || Tears(WritingDirect(o))))
      ensures var p := old(direct).value.package; var n := if o.Wrote? then Min(o.n, |p.data|) else 0;
              direct == Some(WriteBuffer(p, n)) && wire == old(wire) + p.data[..n]
    {
      hide Joined, OpenWire, ClosingWire, Balanced, Counted, Fifo, TornAt, Min;
      var buf := direct.value;
      var p, n := buf.package, if o.Wrote? then Min(o.n, |buf.package.data|) else 0;
      JoinedKept(direct, dw, high, low);
      assert List(direct) + List(dw) == [buf];
      if waiting {
        ClosingWrites(sent, cut, lates, order, wire, p, n);
        TornByBytes(cut, lates, p, 0);
        TornByBytes(cut, lates, p, n);
      } else {
        OpenWrites(sent, p, high + low, order, wire, n);
      }
      wire := wire + p.data[..n];
      direct := Some(WriteBuffer(p, n));
      JoinedKept(direct, dw, high, low);
      assert List(direct) + List(dw) == [direct.value];
    }

    /** What a worker does after its `write`: all done, or the rest is left in `dw_buffer`; and the
        lock is released. */
    method LeaveDirect()
      requires Valid() && direct.Some?
      modifies `direct, `dw, `sent, `lates
      ensures Valid() && !Locked() && Torn() == old(Torn())
      ensures dw == if old(direct).value.ptr == |old(direct).value.package.data| then None else old(direct)
    {
      hide Joined, OpenWire, ClosingWire, Balanced, Counted, Fifo, TornAt;
      var buf := direct.value;
      JoinedKept(direct, dw, high, low);
      assert Front() == [buf] + (high + low);
      if buf.ptr == |buf.package.data| {
        EndDirect();
      } else {
        DirectBounds();
        dw, direct := Some(buf), None;
        JoinedKept(direct, dw, high, low);
        assert List(dw) == [buf];
      }
    }

    lemma {:induction false} DirectBounds()
      requires Valid() && direct.Some?
      ensures direct.value.ptr <= |direct.value.package.data|
    {
      hide Joined, OpenWire, ClosingWire, Balanced, Counted, Fifo;
      JoinedKept(direct, dw, high, low);
      assert Front()[0] == direct.value;
      if waiting {
        ClosingBounds(sent, cut, lates, Front(), order, wire);
      } else {
        OpenBounds(sent, Front(), order, wire);
      }
    }

    method EndDirect()
      requires Valid() && direct.Some? && direct.value.ptr == |direct.value.package.data|
      modifies `direct, `sent, `lates
      ensures Valid() && direct.None? && Torn() == old(Torn())
    {
      hide Joined, OpenWire, ClosingWire, Balanced, Counted, Fifo, TornAt;
      var buf := direct.value;
      JoinedKept(direct, dw, high, low);
      ghost var front := Front();
      assert front == [buf] + (high + low) && front[0] == buf && front[1..] == high + low;
      direct := None;
      JoinedIdle(high, low);
      if waiting {
        assert front == [buf];
        ClosingEnds(sent, cut, lates, order, wire, buf);
        TornAtEnd(cut, lates, buf);
        lates := lates + [buf.package];
      } else {
        OpenEnds(sent, front, order, wire);
        sent := sent + [buf.package];
      }
    }

    // ----- closing -----

    /** `close_socket`: with nothing left to send, or told to shut down, it closes; else it half-closes. */
    method CloseSocket(shutdown: bool, outcomes: seq<Outcome>)
      requires Valid() && Open()
      modifies `high, `low, `wire, `wbSize, `sent, `state, `dw, `cut, `lates, `rest, `waiting
      ensures Valid() && !Torn()
      ensures var t := if old(NoMoreSendingData() || Locked()) then Turn(old(high), old(low), false, [])
                       else TurnOf(List(old(dw)) + old(high), old(low), old(state == HalfClose), outcomes);
              && wire == old(wire) + t.bytes && (t.closed ==> state == Invalid)
              && (state == HalfClose && !waiting ==> high == t.high && low == t.low)
      ensures waiting || state in {HalfClose, Invalid}
      ensures shutdown || old(NoMoreSendingData()) ==> waiting || state == Invalid
      ensures !waiting && state == HalfClose ==> !NoMoreSendingData()
      ensures !shutdown && old(!NoMoreSendingData()) && waiting ==> dw.None? && cut.None?
    {
      hide Joined, OpenWire, ClosingWire, Balanced, Counted, TornAt, TurnOf, InOrder;
      if !NoMoreSendingData() {
        var closed := SendBuffer(outcomes);
        if closed {
          return;
        }
      }
      if shutdown || NoMoreSendingData() {
        FreeAndWait();
      } else {
        InOrderCut(Accepting(), order, pipe, submitted);
        state := HalfClose;
      }
    }

    /** `nomore_sending_data` */
    predicate NoMoreSendingData()
      reads this
    {
      high == low == [] && dw.None? && sending == 0
    }

    // ----- runs -----

    /** One step of some thread; a step that is not possible does nothing. The stream is torn from then on
        exactly if it was, or if the step tears it. */
    method Step(e: Event) returns (ghost tears: bool)
      requires Valid()
      modifies this
      ensures Valid() && old(wire) <= wire && old(submitted) <= submitted
      ensures tears == old(Tears(e)) && (Torn() <==> old(Torn()) || tears)
    {
      hide Shape, Joined, OpenWire, ClosingWire, Balanced, Counted, Fifo, TornAt, Min;
      tears := Tears(e);
      if e.Announcing? {
        Announce();
      } else if e.Submitting? && announced > 0 && e.p.priority != Direct {
        Submit(e.p);
      } else if e.Locking? {
        var _ := TryLock(e.data);
      } else if e.Checking? && checking.Some? {
        if checking.value.passed < 4 {
          var _ := CheckAccess();
        } else {
          var _ := CheckState();
        }
      } else if e.WritingDirect? && direct.Some? && direct.value.ptr == 0 {
        DirectWrite(e.o);
      } else if e.LeavingDirect? && direct.Some? {
        LeaveDirect();
      } else if e.Settling? && settling {
        Settle();
      } else if e.Finishing? && waiting && !Locked() {
        FinishClose();
      } else if state != Invalid && !waiting {
        SocketThread(e);
      }
    }

    /** `connect` has succeeded. */
    method Establish()
      requires Valid() && state == Connecting
      modifies `state
      ensures Valid() && state == Connected
    {
      hide Joined, OpenWire, ClosingWire, Balanced, Counted, TornAt, Of;
      state := Connected;
    }

    /** A step of the socket thread, which waits while it closes the socket. */
    method SocketThread(e: Event)
      requires Valid() && Open()
      modifies this
      ensures Valid() && old(wire) <= wire && submitted == old(submitted) && !Torn()
    {
      hide Sound;
      if e.Establishing? && state == Connecting {
        Establish();
      } else if e.Receiving? && pipe != [] && !settling {
        Receive();
      } else if e.Sending? {
        var _ := SendBuffer(e.os);
      } else if e.Closing? {
        CloseSocket(e.shutdown, e.os);
      } else if e.Breaking? {
        FreeAndWait();
      }
    }

    /** Any run of any steps: what is written is always a prefix of whole packages, unless some step put
        bytes of a direct write behind a package that a waiting close had freed half-written. */
    method Run(events: seq<Event>) returns (ghost tears: seq<bool>)
      requires Valid()
      modifies this
      ensures Valid() && old(wire) <= wire && old(submitted) <= submitted
      ensures |tears| == |events| && (Torn() <==> old(Torn()) || true in tears)
      ensures !Closing() ==> wire <= Data(order)
      ensures Closing() && !Torn() ==> wire <= Data(Wholes(sent, cut, lates, Tail()))
      ensures Torn() ==> cut.Some? && cut.value.ptr <= |cut.value.package.data|
      ensures Torn() ==> (wire <= Data(sent + [cut.value.package])
                          <==> Data(lates) + Started(Tail()) <= cut.value.package.data[cut.value.ptr..])
      ensures Closing() ==> ClosingWire(sent, cut, lates, Tail(), order, wire)
      ensures sent <= order && forall p :: Of(order, p) <= Of(submitted, p)
      ensures !Closing() ==> wbSize == Left(high) + Left(low)
    {
      tears := [];
      var i := 0;
      while i < |events|
        invariant 0 <= i <= |events| && Valid() && old(wire) <= wire && old(submitted) <= submitted
        invariant |tears| == i && (Torn() <==> old(Torn()) || true in tears)
      {
        ghost var t := Step(events[i]);
        tears := tears + [t];
        i := i + 1;
      }
      WholePackages();
    }
  }

  lemma {:induction false} KeepFirst(b: WriteBuffer, more: seq<WriteBuffer>, sent: seq<Package>,
                                     order: seq<Package>, front: seq<WriteBuffer>)
    requires front == [b] + more && sent + Packages(front) == order && OneStarted(front)
    ensures sent + Packages([b]) <= order && OneStarted([b]) && Started([b]) == Started(front)
  {
    PackagesFirst(front);
    PackagesFirst([b]);
    assert [b][1..] == [];
  }

  lemma {:induction false} WrittenNone(l: seq<WriteBuffer>, os: seq<Outcome>)
    ensures l == [] ==> Written(l, os) == Progress([], os, false, [])
  {
  }

  lemma {:induction false} ClosingSent(sent: seq<Package>, cut: Option<WriteBuffer>, lates: seq<Package>,
                                       tail: seq<WriteBuffer>, order: seq<Package>, wire: seq<Byte>)
    requires ClosingWire(sent, cut, lates, tail, order, wire)
    ensures sent <= order
  {
  }

  lemma {:induction false} NothingLeft(sent: seq<Package>, l: seq<WriteBuffer>)
    ensures l == [] ==> sent + Packages(l) == sent && Data(sent) + Started(l) == Data(sent)
  {
  }

  lemma {:induction false} PipeFirst(pipe: seq<Package>)
    requires NoDirects(pipe) && pipe != []
    ensures pipe[0].priority != Direct && NoDirects(pipe[1..])
  {
  }

  lemma {:induction false} NoDirectsSnoc(l: seq<WriteBuffer>, p: Package)
    requires p.priority != Direct
    ensures NoDirects(Packages(l)) ==> NoDirects(Packages(l + [WriteBuffer(p, 0)]))
  {
  }

  lemma {:induction false} DirectFirst(sent: seq<Package>, p: Package, l: seq<WriteBuffer>)
    requires Whole(l)
    ensures var m := [WriteBuffer(p, 0)] + l; OneStarted(m) && Started(m) == Started(l) == []
    ensures sent + Packages([WriteBuffer(p, 0)] + l) == sent + [p] + Packages(l)
  {
    assert Packages([WriteBuffer(p, 0)] + l) == [p] + Packages(l);
  }

  lemma {:induction false} OfNoDirects(ps: seq<Package>)
    requires NoDirects(ps)
    ensures Of(ps, Direct) == []
  {
    if ps != [] { OfNoDirects(ps[..|ps| - 1]); }
  }

  /** A direct write goes before requests that were received meanwhile. */
  lemma {:induction false} StartFifo(sent: seq<Package>, p: Package, high: seq<WriteBuffer>, low: seq<WriteBuffer>,
                                     pipe: seq<Package>, submitted: seq<Package>)
    requires NoDirects(Packages(high)) && AllLow(low) && NoDirects(pipe) && p.priority == Direct
    requires forall q :: Of(sent + Packages(high + low), q) + Of(pipe, q) == Of(submitted, q)
    ensures forall q :: Of(sent + [p] + Packages(high + low), q) + Of(pipe, q) == Of(submitted + [p], q)
  {
    var rest := Packages(high + low);
    assert NoDirects(rest) by { assert rest == Packages(high) + Packages(low); }
    hide Of, Packages, NoDirects;
    forall q ensures Of(sent + [p] + rest, q) + Of(pipe, q) == Of(submitted + [p], q) {
      OfConcat(sent, rest, q);
      OfConcat(sent + [p], rest, q);
      OfSnoc(sent, p, q);
      OfSnoc(submitted, p, q);
      if q == Direct {
        OfNoDirects(rest);
        OfNoDirects(pipe);
        NothingBehind(Of(sent, q), Of(sent + [p], q));
      }
    }
  }

  lemma {:induction false} NothingBehind(a: seq<Package>, b: seq<Package>)
    ensures a + [] + [] == a && b + [] + [] == b
  {
  }

  /** A request of two bytes in the high list. */
  method OneQueued() returns (s: Socket)
    ensures fresh(s) && s.Valid() && s.state == Connected && !s.waiting && s.dw.None? && s.sending == 0 && !s.Locked()
    ensures s.wire == [] && s.submitted == [Package([1, 2], High)] && s.low == []
    ensures s.high == [WriteBuffer(Package([1, 2], High), 0)]
  {
    hide Socket.Sound, Data, Of;
    s := new Socket(true);
    assert s.CanDirectWrite();
    s.Announce();
    s.Submit(Package([1, 2], High));
    s.Receive();
    s.Settle();
  }

  /** A byte of it is written, and a worker has taken the lock: when it made its first check, on the new
      socket, it could write directly. */
  method HalfSent() returns (s: Socket)
    ensures fresh(s) && s.Valid() && s.state == Connected && !s.waiting && s.dw.None? && s.sending == 0
            && s.direct.None?
    ensures s.wire == [1] && s.submitted == [Package([1, 2], High)] && s.high == [WriteBuffer(Package([1, 2], High), 1)]
    ensures s.checking == Some(Check(Package([9], Direct), 0))
  {
    hide Socket.Sound, Data, Of, TurnOf;
    s := OneQueued();
    TurnOne();
    var _ := s.SendBuffer([Wrote(1)]);
    var _ := s.TryLock([9]);
  }

  lemma {:induction false} TurnOne()
    ensures TurnOf([WriteBuffer(Package([1, 2], High), 0)], [], false, [Wrote(1)])
         == Turn([WriteBuffer(Package([1, 2], High), 1)], [], false, [1])
    ensures List(None) + [WriteBuffer(Package([1, 2], High), 0)] == [WriteBuffer(Package([1, 2], High), 0)]
  {
  }

  /** The close frees the lists and waits for the lock; the worker finds the lists empty and may write. */
  method LateStart() returns (s: Socket)
    ensures fresh(s) && s.Valid() && s.waiting && s.direct == Some(WriteBuffer(Package([9], Direct), 0))
    ensures s.wire == [1] && s.submitted == [Package([1, 2], High), Package([9], Direct)] && !s.Torn()
    ensures s.cut == Some(WriteBuffer(Package([1, 2], High), 1))
  {
    hide Socket.Sound, Socket.Torn;
    s := HalfSent();
    s.FreeAndWait();
    var _ := s.CheckAccess();
    var _ := s.CheckAccess();
    var _ := s.CheckAccess();
    var _ := s.CheckAccess();
    var _ := s.CheckState();
  }

  /** A run that tears a package. */
  method TornRun() returns (s: Socket)
    ensures fresh(s) && s.wire == [1, 9] && s.submitted == [Package([1, 2], High), Package([9], Direct)]
    ensures s.state == Invalid && s.Valid() && s.Torn() && s.cut == Some(WriteBuffer(Package([1, 2], High), 1))
  {
    hide Socket.Sound, Socket.Torn;
    s := LateStart();
    s.DirectWrite(Wrote(1));
    s.LeaveDirect();
    s.FinishClose();
  }
}
