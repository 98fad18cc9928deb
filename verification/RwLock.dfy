/** The spinning reader/writer lock of rwlock.h: two words, and any number of threads that each go
    through its loops one atomic access at a time. */
module RwLock {

  /** Where a thread is in the lock's code. */
  datatype Place =
    | Out
    | ReadSpin    // reads `write` until it is 0
    | ReadPassed  // has seen 0, will raise `read`
    | ReadRaised  // has raised `read`, will look at `write` again
    | ReadBack    // has seen a writer, will lower `read`
    | Reading
    | WriteSpin   // sets `write` until it was 0
    | WriteSet    // has set it, reads `read` until it is 0
    | Writing

  datatype Lock = Lock(write: bool, read: int, at: seq<Place>)

  datatype Wish = ToRead | ToWrite | Neither

  /** The next atomic access of thread t; inside the lock it is the unlock. */
  function Turn(l: Lock, t: nat, w: Wish): Lock
    requires t < |l.at|
  {
    match l.at[t]
    case Out => if w == ToRead then Go(l, t, ReadSpin) else if w == ToWrite then Go(l, t, WriteSpin) else l
    case ReadSpin => if l.write then l else Go(l, t, ReadPassed)
    case ReadPassed => Go(l, t, ReadRaised).(read := l.read + 1)
    case ReadRaised => Go(l, t, if l.write then ReadBack else Reading)
    case ReadBack => Go(l, t, ReadSpin).(read := l.read - 1)
    case Reading => Go(l, t, Out).(read := l.read - 1)
    case WriteSpin => if l.write then l else Go(l, t, WriteSet).(write := true)
    case WriteSet => if l.read == 0 then Go(l, t, Writing) else l
    case Writing => Go(l, t, Out).(write := false)
  }

  function Go(l: Lock, t: nat, p: Place): Lock
    requires t < |l.at|
  {
    l.(at := l.at[t := p])
  }

  function Raised(p: Place): nat
  {
    if p in {ReadRaised, ReadBack, Reading} then 1 else 0
  }

  function Sets(p: Place): nat
  {
    if p in {WriteSet, Writing} then 1 else 0
  }

  function Readers(s: seq<Place>): nat
  {
    if s == [] then 0 else Raised(s[0]) + Readers(s[1..])
  }

  function Writers(s: seq<Place>): nat
  {
    if s == [] then 0 else Sets(s[0]) + Writers(s[1..])
  }

  /** The counters count, and no reader is inside with a writer. */
  ghost predicate Inv(l: Lock)
  {
    && l.read == Readers(l.at)
    && Writers(l.at) == (if l.write then 1 else 0)
    && forall i, j | 0 <= i < |l.at| && 0 <= j < |l.at| :: l.at[i] == Reading ==> l.at[j] != Writing
  }

  function Start(n: nat): Lock
  {
    Lock(false, 0, seq(n, _ => Out))
  }

  lemma {:induction false} Counted(s: seq<Place>, i: nat, p: Place)
    requires i < |s|
    ensures Readers(s[i := p]) == Readers(s) - Raised(s[i]) + Raised(p)
    ensures Writers(s[i := p]) == Writers(s) - Sets(s[i]) + Sets(p)
  {
    if i > 0 {
      Counted(s[1..], i - 1, p);
      assert s[i := p][1..] == s[1..][i - 1 := p];
    } else {
      assert s[i := p][1..] == s[1..];
    }
  }

  lemma {:induction false} CountsAtLeast(s: seq<Place>, i: nat)
    requires i < |s|
    ensures Readers(s) >= Raised(s[i]) && Writers(s) >= Sets(s[i])
  {
    if i > 0 { CountsAtLeast(s[1..], i - 1); }
  }

  lemma {:induction false} NobodyOut(n: nat)
    ensures Inv(Start(n))
    decreases n
  {
    if n > 0 {
      NobodyOut(n - 1);
      assert Start(n).at[1..] == Start(n - 1).at;
    }
  }

  lemma {:induction false} TurnKeeps(l: Lock, t: nat, w: Wish)
    requires Inv(l) && t < |l.at|
    ensures Inv(Turn(l, t, w))
  {
    var m := Turn(l, t, w);
    Counted(l.at, t, m.at[t]);
    assert m.at == l.at[t := m.at[t]];
    CountsAtLeast(l.at, t);
    forall i, j | 0 <= i < |m.at| && 0 <= j < |m.at| && m.at[i] == Reading
      ensures m.at[j] != Writing
    {
      CountsAtLeast(l.at, i);
      CountsAtLeast(l.at, j);
    }
  }

  /** The turns of a run: who, and what a thread outside wants. */
  function After(l: Lock, turns: seq<(nat, Wish)>): Lock
    requires forall k | 0 <= k < |turns| :: turns[k].0 < |l.at|
    decreases |turns|
  {
    if turns == [] then l
    else
      var m := After(l, turns[..|turns| - 1]);
      var (t, w) := turns[|turns| - 1];
      if t < |m.at| then Turn(m, t, w) else m
  }

  lemma {:induction false} AfterKeeps(l: Lock, turns: seq<(nat, Wish)>)
    requires Inv(l) && forall k | 0 <= k < |turns| :: turns[k].0 < |l.at|
    ensures Inv(After(l, turns)) && |After(l, turns).at| == |l.at|
    decreases |turns|
  {
    if turns != [] {
      var n := |turns| - 1;
      AfterKeeps(l, turns[..n]);
      assert turns[n].0 < |l.at|;
      TurnKeeps(After(l, turns[..n]), turns[n].0, turns[n].1);
    }
  }

  /** In every interleaving of any number of threads a writer inside excludes every other writer and
      every reader inside. */
  lemma {:induction false} Exclusion(n: nat, turns: seq<(nat, Wish)>, i: nat, j: nat)
    requires forall k | 0 <= k < |turns| :: turns[k].0 < n
    requires i < n && j < n && i != j
    ensures var l := After(Start(n), turns);
            |l.at| == n && (l.at[i] == Writing ==> l.at[j] !in {Reading, Writing})
  {
    NobodyOut(n);
    AfterKeeps(Start(n), turns);
    var l := After(Start(n), turns);
    if l.at[i] == Writing { OneWriter(l, i, j); }
  }

  lemma {:induction false} OneWriter(l: Lock, i: nat, j: nat)
    requires Inv(l) && i < |l.at| && j < |l.at| && i != j && l.at[i] == Writing
    ensures Sets(l.at[j]) == 0 && l.at[j] != Reading
  {
    Counted(l.at, i, Out);
    CountsAtLeast(l.at[i := Out], j);
  }

  // ----- getting in and out -----

  ghost predicate Alone(l: Lock, t: nat)
  {
    Inv(l) && t < |l.at| && forall i | 0 <= i < |l.at| && i != t :: l.at[i] == Out
  }

  /** With all others outside, the words of the lock are those of this thread. */
  lemma {:induction false} AloneWords(l: Lock, t: nat)
    requires Alone(l, t)
    ensures l == Lock(Sets(l.at[t]) == 1, Raised(l.at[t]), l.at)
  {
    var n := |l.at|;
    NobodyOut(n);
    assert l.at[t := Out] == Start(n).at;
    Counted(l.at, t, Out);
  }

  /** k turns of thread t, and of no other. */
  function Turns(l: Lock, t: nat, w: Wish, k: nat): Lock
    requires t < |l.at|
    decreases k
  {
    if k == 0 then l else Turns(Turn(l, t, w), t, w, k - 1)
  }

  /** How many turns a thread is away from reading, and from writing. */
  function TurnsToRead(p: Place): nat
  {
    match p
    case ReadRaised => 1
    case ReadPassed => 2
    case ReadSpin => 3
    case _ => 4
  }

  function TurnsToWrite(p: Place): nat
  {
    match p
    case WriteSet => 1
    case WriteSpin => 2
    case _ => 3
  }

  lemma {:induction false} StaysAlone(l: Lock, t: nat, w: Wish)
    requires Alone(l, t)
    ensures Alone(Turn(l, t, w), t) && Turn(l, t, w).at == l.at[t := Turn(l, t, w).at[t]]
  {
    TurnKeeps(l, t, w);
  }

  /** From each place on its way in, a thread reads after so many turns of its own. */
  lemma {:induction false} GetsToRead(l: Lock, t: nat)
    requires Alone(l, t) && l.at[t] in {Out, ReadSpin, ReadPassed, ReadRaised, ReadBack}
    ensures Turns(l, t, ToRead, TurnsToRead(l.at[t])) == Lock(false, 1, l.at[t := Reading])
    decreases TurnsToRead(l.at[t]), l.at[t] == ReadBack
  {
    hide Inv, Readers, Writers;
    AloneWords(l, t);
    StaysAlone(l, t, ToRead);
    var m := Turn(l, t, ToRead);
    AloneWords(m, t);
    if l.at[t] != ReadRaised {
      GetsToRead(m, t);
    }
  }

  /** And writes after so many. */
  lemma {:induction false} GetsToWrite(l: Lock, t: nat)
    requires Alone(l, t) && l.at[t] in {Out, WriteSpin, WriteSet}
    ensures Turns(l, t, ToWrite, TurnsToWrite(l.at[t])) == Lock(true, 0, l.at[t := Writing])
    decreases TurnsToWrite(l.at[t])
  {
    hide Inv, Readers, Writers;
    AloneWords(l, t);
    StaysAlone(l, t, ToWrite);
    var m := Turn(l, t, ToWrite);
    AloneWords(m, t);
    if l.at[t] != WriteSet {
      GetsToWrite(m, t);
    }
  }

  /** One turn more, and the lock is free. */
  lemma {:induction false} GetsOut(l: Lock, t: nat, w: Wish)
    requires Alone(l, t) && l.at[t] in {Reading, Writing}
    ensures Turn(l, t, w) == Start(|l.at|)
  {
    StaysAlone(l, t, w);
    AloneWords(Turn(l, t, w), t);
  }
}
