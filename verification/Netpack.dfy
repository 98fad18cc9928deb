/** The reassembly of packets in lua-netpack.c: a two-byte length and the data, cut anywhere by the
    network, with one unfinished record per socket and a queue that grows. */
module Netpack {

  import opened Basics
  import opened MessageQueue

  const QUEUESIZE := 1024
  const HASHSIZE := 4096

  /** `struct netpack`: the data of one packet of a socket. */
  datatype Packet = Packet(id: int, data: seq<Byte>)

  /** `struct uncomplete`: the bytes of a packet read so far; with `read` -1 only the first byte of
      its length is. */
  datatype Uncomplete = Uncomplete(id: int, size: nat, data: seq<Byte>, read: int, header: Byte)

  // ----- what a stream of bytes means -----

  datatype Parsed = Parsed(packets: seq<seq<Byte>>, rest: seq<Byte>)

  /** `read_size` */
  function ReadSize(s: seq<Byte>): (n: nat)
    requires |s| >= 2
    ensures n < 0x1_0000
  {
    var hi: int, lo: int := s[0], s[1];
    hi * 256 + lo
  }

  /** The whole packets at the front of a stream, and what is left. */
  function Parse(s: seq<Byte>): Parsed
  {
    if |s| < 2 || |s| - 2 < ReadSize(s) then Parsed([], s)
    else
      var n := ReadSize(s);
      var more := Parse(s[2 + n..]);
      Parsed([s[2..2 + n]] + more.packets, more.rest)
  }

  /** `lpack`: a packet on the wire. */
  function Frame(data: seq<Byte>): seq<Byte>
    requires |data| < 0x1_0000
  {
    [|data| / 256, |data| % 256] + data
  }

  lemma {:induction false} ParseFrame(n: nat, data: seq<Byte>)
    requires n < 0x1_0000
    ensures var s := [n / 256, n % 256] + data;
            if |data| < n then Parse(s) == Parsed([], s)
            else Parse(s) == Parsed([data[..n]] + Parse(data[n..]).packets, Parse(data[n..]).rest)
  {
    var s := [n / 256, n % 256] + data;
    assert ReadSize(s) == n;
    if |data| >= n {
      assert s[2..2 + n] == data[..n] && s[2 + n..] == data[n..];
    }
  }

  /** Cutting a stream does not matter. */
  lemma {:induction false} ParseConcat(a: seq<Byte>, b: seq<Byte>)
    ensures var p := Parse(a); var q := Parse(p.rest + b);
            Parse(a + b) == Parsed(p.packets + q.packets, q.rest)
    decreases |a|
  {
    ParseStep(a);
    ParseStep(a + b);
    hide Parse;
    if |a| < 2 || |a| - 2 < ReadSize(a) {
      assert [] + Parse(a + b).packets == Parse(a + b).packets;
    } else {
      var n, c := ReadSize(a), a + b;
      var first, tail := a[2..2 + n], a[2 + n..];
      ParseConcat(tail, b);
      assert c[0] == a[0] && c[1] == a[1] && ReadSize(c) == n;
      assert c[2 + n..] == tail + b && c[2..2 + n] == first;
      var p, q := Parse(tail), Parse(Parse(tail).rest + b);
      assert [first] + (p.packets + q.packets) == [first] + p.packets + q.packets;
    }
  }

  lemma {:induction false} ParseStep(s: seq<Byte>)
    ensures |s| < 2 || |s| - 2 < ReadSize(s) ==> Parse(s) == Parsed([], s)
    ensures |s| >= 2 && |s| - 2 >= ReadSize(s) ==>
              var n := ReadSize(s);
              var more := Parse(s[2 + n..]);
              Parse(s) == Parsed([s[2..2 + n]] + more.packets, more.rest)
  {
  }

  lemma {:induction false} RestIsShort(s: seq<Byte>)
    ensures Parse(Parse(s).rest) == Parsed([], Parse(s).rest)
    decreases |s|
  {
    if |s| >= 2 && |s| - 2 >= ReadSize(s) { RestIsShort(s[2 + ReadSize(s)..]); }
  }

  function Frames(ps: seq<seq<Byte>>): seq<Byte>
    requires forall i | 0 <= i < |ps| :: |ps[i]| < 0x1_0000
  {
    if ps == [] then [] else Frame(ps[0]) + Frames(ps[1..])
  }

  /** What `lpack` framed comes out again. */
  lemma {:induction false} ParseFrames(ps: seq<seq<Byte>>)
    requires forall i | 0 <= i < |ps| :: |ps[i]| < 0x1_0000
    ensures Parse(Frames(ps)) == Parsed(ps, [])
    decreases |ps|
  {
    hide Parse, Frame;
    if ps == [] {
      ParseStep([]);
    } else {
      ParseFrames(ps[1..]);
      ParseOneFrame(ps[0], Frames(ps[1..]));
      assert ps == [ps[0]] + ps[1..];
    }
  }

  lemma {:induction false} ParseOneFrame(first: seq<Byte>, tail: seq<Byte>)
    requires |first| < 0x1_0000
    ensures Parse(Frame(first) + tail) == Parsed([first] + Parse(tail).packets, Parse(tail).rest)
  {
    hide Parse;
    var n, d := |first|, first + tail;
    ParseFrame(n, d);
    assert Frame(first) + tail == [n / 256, n % 256] + d;
    assert d[..n] == first && d[n..] == tail;
  }

  function Tag(fd: int, ps: seq<seq<Byte>>): (r: seq<Packet>)
    ensures |r| == |ps|
  {
    seq(|ps|, i requires 0 <= i < |ps| => Packet(fd, ps[i]))
  }

  // ----- unfinished records -----

  /** `hash_fd` */
  function HashFd(fd: int): (h: nat)
    ensures h < HASHSIZE
  {
    (fd / 0x100_0000 + fd / 0x1000 + fd) % 0x1_0000_0000 % HASHSIZE
  }

  predicate RecordOk(u: Uncomplete)
  {
    (u.read == -1 && u.data == []) || (u.read == |u.data| < u.size < 0x1_0000)
  }

  /** The bytes a record stands for. */
  function Bytes(u: Uncomplete): seq<Byte>
    requires RecordOk(u)
  {
    if u.read == -1 then [u.header] else [u.size / 256, u.size % 256] + u.data
  }

  function Lookup(chain: seq<Uncomplete>, fd: int): (r: Option<Uncomplete>)
    ensures r.Some? ==> r.value in chain && r.value.id == fd
  {
    if chain == [] then None else if chain[0].id == fd then Some(chain[0]) else Lookup(chain[1..], fd)
  }

  /** The chain without the record of a socket. */
  function Unlinked(chain: seq<Uncomplete>, fd: int): seq<Uncomplete>
  {
    if chain == [] then [] else if chain[0].id == fd then chain[1..] else [chain[0]] + Unlinked(chain[1..], fd)
  }

  ghost predicate ChainOk(chain: seq<Uncomplete>, h: nat)
  {
    && (forall i | 0 <= i < |chain| :: RecordOk(chain[i]) && HashFd(chain[i].id) == h)
    && (forall i, j | 0 <= i < j < |chain| :: chain[i].id != chain[j].id)
  }

  lemma {:induction false} LookupNone(chain: seq<Uncomplete>, fd: int)
    ensures Lookup(chain, fd).None? <==> forall i | 0 <= i < |chain| :: chain[i].id != fd
    decreases |chain|
  {
    if chain != [] {
      LookupNone(chain[1..], fd);
      assert forall i | 1 <= i < |chain| :: chain[i] == chain[1..][i - 1];
    }
  }

  lemma {:induction false} UnlinkedIs(chain: seq<Uncomplete>, h: nat, fd: int, other: int)
    requires ChainOk(chain, h)
    ensures ChainOk(Unlinked(chain, fd), h)
    ensures forall u | u in Unlinked(chain, fd) :: u in chain
    ensures Lookup(Unlinked(chain, fd), fd).None?
    ensures other != fd ==> Lookup(Unlinked(chain, fd), other) == Lookup(chain, other)
    decreases |chain|
  {
    if chain != [] {
      var rest := chain[1..];
      assert ChainOk(rest, h);
      UnlinkedIs(rest, h, fd, other);
      if chain[0].id == fd {
        LookupNone(rest, fd);
      } else {
        var r := Unlinked(rest, fd);
        assert Unlinked(chain, fd)[1..] == r;
        forall i | 0 <= i < |r| ensures r[i].id != chain[0].id {
          assert r[i] in rest;
        }
      }
    }
  }

  lemma {:induction false} LinkedIs(chain: seq<Uncomplete>, h: nat, u: Uncomplete, other: int)
    requires ChainOk(chain, h) && RecordOk(u) && HashFd(u.id) == h && Lookup(chain, u.id).None?
    ensures ChainOk([u] + chain, h)
    ensures Lookup([u] + chain, u.id) == Some(u)
    ensures other != u.id ==> Lookup([u] + chain, other) == Lookup(chain, other)
  {
    LookupNone(chain, u.id);
    assert ([u] + chain)[1..] == chain;
  }

  // ----- the queue of whole packets -----

  class PacketQueue {
    var queue: array<Packet>
    var head: nat
    var tail: nat

    ghost predicate Valid()
      reads this
    {
      head < queue.Length && tail < queue.Length
    }

    /** The packets from the oldest on. */
    ghost function Contents(): seq<Packet>
      requires Valid()
      reads this, queue
    {
      if head <= tail then queue[head..tail] else queue[head..] + queue[..tail]
    }

    constructor ()
      ensures Valid() && fresh(queue) && Contents() == []
    {
      queue := new Packet[QUEUESIZE](_ => Packet(0, []));
      head, tail := 0, 0;
    }

    /** `expand_queue`, when the packet just written made the ring full. */
    method Expand()
      requires Valid() && head == tail
      modifies this
      ensures Valid() && fresh(queue) && Contents() == old(queue[head..] + queue[..head])
    {
      var cap := queue.Length;
      ghost var all := queue[head..] + queue[..head];
      var bigger := new Packet[cap + QUEUESIZE](_ => Packet(0, []));
      var i := 0;
      while i < cap
        invariant 0 <= i <= cap && queue.Length == cap && head < cap && all == queue[head..] + queue[..head]
        invariant bigger[..i] == all[..i]
        modifies bigger
      {
        ModOnce(head + i, cap);
        bigger[i] := queue[(head + i) % cap];
        i := i + 1;
      }
      queue, head, tail := bigger, 0, cap;
    }

    /** `push_data` */
    method PushData(fd: int, data: seq<Byte>)
      requires Valid()
      modifies this, queue
      ensures Valid() && (queue == old(queue) || fresh(queue))
      ensures Contents() == old(Contents()) + [Packet(fd, data)]
    {
      ghost var before := Contents();
      ghost var full := queue[head..] + queue[..head];
      var slot := tail;
      tail := tail + 1;
      if tail >= queue.Length {
        tail := tail - queue.Length;
      }
      queue[slot] := Packet(fd, data);
      if head == tail {
        assert queue[head..] + queue[..head] == before + [Packet(fd, data)];
        Expand();
      }
    }

    /** `lpop` */
    method Pop() returns (p: Option<Packet>)
      requires Valid()
      modifies `head
      ensures Valid()
      ensures old(Contents()) == [] ==> p == None && Contents() == []
      ensures old(Contents()) != [] ==> p == Some(old(Contents())[0]) && Contents() == old(Contents())[1..]
    {
      if head == tail {
        return None;
      }
      p := Some(queue[head]);
      head := head + 1;
      if head >= queue.Length {
        head := 0;
      }
    }
  }

  // ----- the filter -----

  /** What `lfilter` tells its caller for data: nothing yet, one packet, or that the queue has some. */
  datatype Told = Nothing | Data(fd: int, data: seq<Byte>) | More

  class Filter {
    var hash: seq<seq<Uncomplete>>
    const q: PacketQueue

    ghost predicate Valid()
      reads this, q
    {
      q.Valid() && HashOk()
    }

    ghost predicate HashOk()
      reads `hash
    {
      |hash| == HASHSIZE && forall h | 0 <= h < HASHSIZE :: ChainOk(hash[h], h)
    }

    /** The bytes that wait for the rest of their packet. */
    ghost function Waiting(fd: int): seq<Byte>
      requires HashOk()
      reads `hash
    {
      var r := Lookup(hash[HashFd(fd)], fd);
      if r.None? then [] else BytesIn(hash[HashFd(fd)], HashFd(fd), r.value)
    }

    ghost predicate OthersWait(fd: int, before: seq<seq<Uncomplete>>)
      requires |before| == HASHSIZE
      reads `hash
    {
      |hash| == HASHSIZE && forall other | other != fd ::
        Lookup(hash[HashFd(other)], other) == Lookup(before[HashFd(other)], other)
    }

    constructor ()
      ensures Valid() && fresh(q) && fresh(q.queue) && q.Contents() == [] && forall fd :: Waiting(fd) == []
    {
      hash := seq(HASHSIZE, _ => []);
      q := new PacketQueue();
    }

    /** `find_uncomplete`: the record of a socket, taken out of its chain. */
    method FindUncomplete(fd: int) returns (r: Option<Uncomplete>)
      requires Valid()
      modifies `hash
      ensures Valid() && r == old(Lookup(hash[HashFd(fd)], fd)) && OthersWait(fd, old(hash))
      ensures r.Some? ==> r.value.id == fd && RecordOk(r.value) && Bytes(r.value) == old(Waiting(fd))
      ensures r.None? ==> old(Waiting(fd)) == []
      ensures Lookup(hash[HashFd(fd)], fd).None?
    {
      hide Lookup, Unlinked, HashFd, Bytes, RecordOk;
      var h := HashFd(fd);
      var chain := hash[h];
      assert ChainOk(chain, h);
      var i := FindIn(chain, fd);
      forall other { UnlinkedIs(chain, h, fd, other); }
      if i < |chain| {
        InChain(chain, h, i);
        r := Some(chain[i]);
        hash := hash[h := chain[..i] + chain[i + 1..]];
      } else {
        r := None;
      }
    }

    /** `save_uncomplete`, with the fields its callers set. */
    method SaveUncomplete(u: Uncomplete)
      requires Valid() && RecordOk(u) && Lookup(hash[HashFd(u.id)], u.id).None?
      modifies `hash
      ensures Valid() && Waiting(u.id) == Bytes(u) && OthersWait(u.id, old(hash))
    {
      var h := HashFd(u.id);
      assert ChainOk(hash[h], h);
      forall other { LinkedIs(hash[h], h, u, other); }
      hash := hash[h := [u] + hash[h]];
    }

    /** `push_more`: the packets of a buffer into the queue, and a record for what is left. */
    method PushMore(fd: int, buffer0: seq<Byte>)
      requires Valid() && |buffer0| > 0 && Lookup(hash[HashFd(fd)], fd).None?
      modifies `hash, q, q.queue
      ensures Valid() && Waiting(fd) == Parse(buffer0).rest && OthersWait(fd, old(hash))
      ensures q.queue == old(q.queue) || fresh(q.queue)
      ensures q.Contents() == old(q.Contents()) + Tag(fd, Parse(buffer0).packets)
      decreases |buffer0|
    {
      hide Lookup, HashFd, ChainOk;
      ParseStep(buffer0);
      TagNone(fd);
      if |buffer0| == 1 {
        SaveUncomplete(Uncomplete(fd, 0, [], -1, buffer0[0]));
        return;
      }
      var packSize := ReadSize(buffer0);
      var buffer := buffer0[2..];
      if |buffer| < packSize {
        SaveUncomplete(Uncomplete(fd, packSize, buffer, |buffer|, 0));
        Reframe(buffer0);
        return;
      }
      assert buffer[..packSize] == buffer0[2..2 + packSize];
      q.PushData(fd, buffer[..packSize]);
      buffer := buffer[packSize..];
      assert buffer == buffer0[2 + packSize..];
      TagFirst(fd, buffer0[2..2 + packSize], Parse(buffer).packets);
      Appended(old(q.Contents()), Packet(fd, buffer0[2..2 + packSize]), Tag(fd, Parse(buffer).packets));
      hide Tag;
      if |buffer| > 0 {
        PushMore(fd, buffer);
      } else {
        ParseStep(buffer);
        WaitsNot(fd);
      }
    }

    /** `filter_data_`: the bytes that waited and the new ones, parsed. */
    method FilterData(fd: int, chunk: seq<Byte>) returns (told: Told)
      requires Valid() && |chunk| > 0
      modifies `hash, q, q.queue
      ensures Valid() && OthersWait(fd, old(hash)) && (q.queue == old(q.queue) || fresh(q.queue))
      ensures var p := Parse(old(Waiting(fd)) + chunk);
              && Waiting(fd) == p.rest
              && q.Contents() == old(q.Contents()) + (if told.More? then Tag(fd, p.packets) else [])
              && (told.Nothing? ==> p.packets == [])
              && (told.Data? ==> p.packets == [told.data] && told.fd == fd)
    {
      hide Lookup, HashFd, ChainOk;
      ghost var waited := Waiting(fd);
      var r := FindUncomplete(fd);
      if r.None? {
        assert waited + chunk == chunk;
        told := FilterNew(fd, chunk);
        return;
      }
      var uc := r.value;
      var buffer := chunk;
      if uc.read < 0 {
        var packSize: nat := uc.header as int * 256 + buffer[0];
        buffer := buffer[1..];
        assert waited + chunk == [packSize / 256, packSize % 256] + ([] + buffer);
        uc := Uncomplete(fd, packSize, [], 0, uc.header);
      } else {
        assert waited + chunk == [uc.size / 256, uc.size % 256] + (uc.data + buffer);
      }
      told := Fill(fd, uc, buffer);
    }

    /** The record of a socket with the bytes that came. */
    method Fill(fd: int, uc: Uncomplete, buffer0: seq<Byte>) returns (told: Told)
      requires Valid() && Lookup(hash[HashFd(fd)], fd).None?
      requires uc.id == fd && uc.read == |uc.data| <= uc.size < 0x1_0000 && (uc.read < uc.size || uc.read == 0)
      modifies `hash, q, q.queue
      ensures Valid() && OthersWait(fd, old(hash)) && (q.queue == old(q.queue) || fresh(q.queue))
      ensures var p := Parse([uc.size / 256, uc.size % 256] + (uc.data + buffer0));
              && Waiting(fd) == p.rest
              && q.Contents() == old(q.Contents()) + (if told.More? then Tag(fd, p.packets) else [])
              && (told.Nothing? ==> p.packets == [])
              && (told.Data? ==> p.packets == [told.data] && told.fd == fd)
    {
      hide Lookup, HashFd, ChainOk, Parse, Tag, Unlinked;
      ghost var all := uc.data + buffer0;
      ParseFrame(uc.size, all);
      var buffer := buffer0;
      var need := uc.size - uc.read;
      if |buffer| < need {
        SaveUncomplete(Uncomplete(fd, uc.size, uc.data + buffer, uc.read + |buffer|, uc.header));
        return Nothing;
      }
      var data := uc.data + buffer[..need];
      buffer := buffer[need..];
      assert all[..uc.size] == data && all[uc.size..] == buffer;
      if |buffer| == 0 {
        ParseStep(buffer);
        assert [data] + [] == [data];
        WaitsNot(fd);
        return Data(fd, data);
      }
      TagFirst(fd, data, Parse(buffer).packets);
      Appended(q.Contents(), Packet(fd, data), Tag(fd, Parse(buffer).packets));
      q.PushData(fd, data);
      PushMore(fd, buffer);
      told := More;
    }

    /** Bytes of a socket that has no record. */
    method FilterNew(fd: int, chunk: seq<Byte>) returns (told: Told)
      requires Valid() && |chunk| > 0 && Lookup(hash[HashFd(fd)], fd).None?
      modifies `hash, q, q.queue
      ensures Valid() && OthersWait(fd, old(hash)) && (q.queue == old(q.queue) || fresh(q.queue))
      ensures var p := Parse(chunk);
              && Waiting(fd) == p.rest
              && q.Contents() == old(q.Contents()) + (if told.More? then Tag(fd, p.packets) else [])
              && (told.Nothing? ==> p.packets == [])
              && (told.Data? ==> p.packets == [told.data] && told.fd == fd)
    {
      hide Lookup, HashFd, ChainOk, Parse, Tag, Unlinked;
      ParseStep(chunk);
      if |chunk| == 1 {
        SaveUncomplete(Uncomplete(fd, 0, [], -1, chunk[0]));
        return Nothing;
      }
      var packSize := ReadSize(chunk);
      var buffer := chunk[2..];
      if |buffer| < packSize {
        SaveUncomplete(Uncomplete(fd, packSize, buffer, |buffer|, 0));
        Reframe(chunk);
        return Nothing;
      }
      ghost var first := chunk[2..2 + packSize];
      if |buffer| == packSize {
        ParseStep([]);
        assert chunk[2 + packSize..] == [] && [first] + [] == [first] && buffer == first;
        WaitsNot(fd);
        return Data(fd, buffer);
      }
      TagFirst(fd, first, Parse(buffer[packSize..]).packets);
      Appended(q.Contents(), Packet(fd, first), Tag(fd, Parse(buffer[packSize..]).packets));
      assert buffer[..packSize] == first;
      q.PushData(fd, buffer[..packSize]);
      buffer := buffer[packSize..];
      PushMore(fd, buffer);
      told := More;
    }

    lemma {:induction false} WaitsNot(fd: int)
      requires Valid() && Lookup(hash[HashFd(fd)], fd).None?
      ensures Waiting(fd) == []
    {
    }

    /** `close_uncomplete` */
    method CloseUncomplete(fd: int)
      requires Valid()
      modifies `hash
      ensures Valid() && Waiting(fd) == [] && OthersWait(fd, old(hash))
    {
      var _ := FindUncomplete(fd);
    }
  }

  lemma {:induction false} Reframe(s: seq<Byte>)
    requires |s| >= 2
    ensures s == [ReadSize(s) / 256, ReadSize(s) % 256] + s[2..]
  {
  }

  lemma {:induction false} Appended(a: seq<Packet>, p: Packet, b: seq<Packet>)
    ensures a + [p] + b == a + ([p] + b)
  {
  }

  lemma {:induction false} TagNone(fd: int)
    ensures Tag(fd, []) == []
  {
  }

  lemma {:induction false} TagFirst(fd: int, p: seq<Byte>, ps: seq<seq<Byte>>)
    ensures Tag(fd, [p] + ps) == [Packet(fd, p)] + Tag(fd, ps)
  {
  }

  // ----- streams -----

  /** All that came for a socket, in one piece. */
  function Joined(chunks: seq<(int, seq<Byte>)>, fd: int): seq<Byte>
  {
    if chunks == [] then []
    else
      var (f, c) := chunks[|chunks| - 1];
      Joined(chunks[..|chunks| - 1], fd) + (if f == fd then c else [])
  }

  /** The data of the packets of a socket. */
  function For(ps: seq<Packet>, fd: int): seq<seq<Byte>>
  {
    if ps == [] then []
    else For(ps[..|ps| - 1], fd) + (if ps[|ps| - 1].id == fd then [ps[|ps| - 1].data] else [])
  }

  lemma {:induction false} ForConcat(a: seq<Packet>, b: seq<Packet>, fd: int)
    ensures For(a + b, fd) == For(a, fd) + For(b, fd)
    decreases |b|
  {
    if b == [] {
      assert a + b == a;
    } else {
      var n := |b| - 1;
      ForConcat(a, b[..n], fd);
      assert (a + b)[..|a| + n] == a + b[..n];
    }
  }

  lemma {:induction false} ForTag(ps: seq<seq<Byte>>, id: int, fd: int)
    ensures For(Tag(id, ps), fd) == if id == fd then ps else []
    decreases |ps|
  {
    if ps != [] {
      var n := |ps| - 1;
      ForTag(ps[..n], id, fd);
      assert Tag(id, ps)[..n] == Tag(id, ps[..n]);
      assert ps == ps[..n] + [ps[n]];
    }
  }

  /** `lpop` until there is nothing. */
  method Drain(q: PacketQueue) returns (out: seq<Packet>)
    requires q.Valid()
    modifies q`head
    ensures q.Valid() && q.Contents() == [] && out == old(q.Contents())
  {
    out := [];
    ghost var all := q.Contents();
    var p := q.Pop();
    if p.Some? { FirstAndRest(all); }
    while p.Some?
      invariant q.Valid()
      invariant p.Some? ==> out + ([p.value] + q.Contents()) == all
      invariant p.None? ==> out == all && q.Contents() == []
      decreases |q.Contents()|, p.Some?
    {
      ghost var left := q.Contents();
      Appended(out, p.value, left);
      out := out + [p.value];
      p := q.Pop();
      if p.Some? { FirstAndRest(left); }
    }
  }

  lemma {:induction false} FirstAndRest(s: seq<Packet>)
    requires s != []
    ensures [] + ([s[0]] + s[1..]) == s && [s[0]] + s[1..] == s
  {
  }

  /** What a listener gets from one message: a packet at once, or all that the queue has. */
  method Listen(f: Filter, fd: int, chunk: seq<Byte>) returns (out: seq<Packet>)
    requires f.Valid() && chunk != [] && f.q.Contents() == []
    modifies f`hash, f.q, f.q.queue
    ensures f.Valid() && f.q.Contents() == [] && (f.q.queue == old(f.q.queue) || fresh(f.q.queue))
    ensures out == Tag(fd, Parse(old(f.Waiting(fd)) + chunk).packets)
    ensures forall other ::
              f.Waiting(other) == if other == fd then Parse(old(f.Waiting(fd)) + chunk).rest else old(f.Waiting(other))
  {
    hide Parse, Lookup, HashFd, ChainOk, Tag;
    ghost var hash0 := f.hash;
    var told := f.FilterData(fd, chunk);
    forall other | other != fd ensures f.Waiting(other) == old(f.Waiting(other)) {
      assert Lookup(f.hash[HashFd(other)], other) == Lookup(hash0[HashFd(other)], other);
    }
    TagNone(fd);
    TagOne(fd, if told.Data? then told.data else []);
    if told.More? {
      out := Drain(f.q);
    } else if told.Data? {
      out := [Packet(told.fd, told.data)];
    } else {
      out := [];
    }
  }

  lemma {:induction false} TagOne(fd: int, p: seq<Byte>)
    ensures Tag(fd, [p]) == [Packet(fd, p)]
  {
  }

  /** One more message: what every socket has had, and what waits. */
  lemma {:induction false} OneMore(chunks: seq<(int, seq<Byte>)>, i: nat, out: seq<Packet>, more: seq<Packet>, fd: int,
                                   waited: seq<Byte>, waits: seq<Byte>)
    requires i < |chunks| && var (g, c) := chunks[i];
             && For(out, fd) == Parse(Joined(chunks[..i], fd)).packets
             && waited == Parse(Joined(chunks[..i], fd)).rest
             && (if fd == g then more == Tag(g, Parse(waited + c).packets) && waits == Parse(waited + c).rest
                 else (exists ps :: more == Tag(g, ps)) && waits == waited)
    ensures For(out + more, fd) == Parse(Joined(chunks[..i + 1], fd)).packets
    ensures waits == Parse(Joined(chunks[..i + 1], fd)).rest
  {
    hide Parse, Tag;
    var (g, c) := chunks[i];
    var s := Joined(chunks[..i], fd);
    assert chunks[..i + 1][..i] == chunks[..i];
    ForConcat(out, more, fd);
    if fd == g {
      ParseConcat(s, c);
      ForTag(Parse(waited + c).packets, g, fd);
    } else {
      var ps :| more == Tag(g, ps);
      ForTag(ps, g, fd);
      assert s + [] == s;
    }
  }

  /** However the bytes of any number of sockets are cut and interleaved, the packets of each depend
      only on what came for it in all: they are those of its whole stream, in order. */
  method Reassemble(f: Filter, chunks: seq<(int, seq<Byte>)>) returns (out: seq<Packet>)
    requires f.Valid() && f.q.Contents() == [] && forall fd :: f.Waiting(fd) == []
    requires forall i | 0 <= i < |chunks| :: chunks[i].1 != []
    modifies f`hash, f.q, f.q.queue
    ensures f.Valid() && f.q.Contents() == []
    ensures forall fd :: For(out, fd) == Parse(Joined(chunks, fd)).packets
    ensures forall fd :: f.Waiting(fd) == Parse(Joined(chunks, fd)).rest
  {
    out := [];
    var i := 0;
    forall fd ensures Parse(Joined(chunks[..0], fd)) == Parsed([], []) { ParseStep(Joined(chunks[..0], fd)); }
    hide Parse, For, Joined, Tag, ChainOk;
    assert forall fd :: For(out, fd) == [] by { ForNone(); }
    while i < |chunks|
      invariant 0 <= i <= |chunks| && f.Valid() && f.q.Contents() == []
      invariant f.q.queue == old(f.q.queue) || fresh(f.q.queue)
      invariant forall fd :: For(out, fd) == Parse(Joined(chunks[..i], fd)).packets
      invariant forall fd :: f.Waiting(fd) == Parse(Joined(chunks[..i], fd)).rest
    {
      var (fd, c) := chunks[i];
      assert chunks[i].1 != [];
      ghost var out0 := out;
      label Before:
      var more := Listen(f, fd, c);
      out := out + more;
      forall other
        ensures For(out, other) == Parse(Joined(chunks[..i + 1], other)).packets
        ensures f.Waiting(other) == Parse(Joined(chunks[..i + 1], other)).rest
      {
        OneMore(chunks, i, out0, more, other, old@Before(f.Waiting(other)), f.Waiting(other));
      }
      i := i + 1;
    }
    assert chunks[..i] == chunks;
  }

  lemma {:induction false} ForNone()
    ensures forall fd :: For([], fd) == []
  {
  }

  /** The walk along a chain. */
  method FindIn(chain: seq<Uncomplete>, fd: int) returns (i: nat)
    ensures i <= |chain|
    ensures i < |chain| ==> chain[i].id == fd && Lookup(chain, fd) == Some(chain[i])
                            && Unlinked(chain, fd) == chain[..i] + chain[i + 1..]
    ensures i == |chain| ==> Lookup(chain, fd).None? && Unlinked(chain, fd) == chain
  {
    i := 0;
    while i < |chain| && chain[i].id != fd
      invariant 0 <= i <= |chain| && forall j | 0 <= j < i :: chain[j].id != fd
    {
      i := i + 1;
    }
    UnlinkedAt(chain, fd, i);
  }

  lemma {:induction false} UnlinkedAt(chain: seq<Uncomplete>, fd: int, i: nat)
    requires i <= |chain| && (forall j | 0 <= j < i :: chain[j].id != fd) && (i < |chain| ==> chain[i].id == fd)
    ensures i < |chain| ==> Lookup(chain, fd) == Some(chain[i]) && Unlinked(chain, fd) == chain[..i] + chain[i + 1..]
    ensures i == |chain| ==> Lookup(chain, fd).None? && Unlinked(chain, fd) == chain
    decreases i
  {
    if i > 0 {
      var rest := chain[1..];
      UnlinkedAt(rest, fd, i - 1);
      assert chain == [chain[0]] + rest;
      if i < |chain| {
        assert chain[..i] + chain[i + 1..] == [chain[0]] + (rest[..i - 1] + rest[i..]);
      }
    }
  }

  lemma {:induction false} InChain(chain: seq<Uncomplete>, h: nat, i: nat)
    requires ChainOk(chain, h) && i < |chain|
    ensures RecordOk(chain[i]) && HashFd(chain[i].id) == h
  {
  }

  /** The bytes of a record in a chain. */
  ghost function BytesIn(chain: seq<Uncomplete>, h: nat, u: Uncomplete): seq<Byte>
    requires ChainOk(chain, h) && u in chain
  {
    Bytes(u)
  }
}
