/** Pattern trees of the LPeg library, and what they mean.

    A tree is a Parsing Expression over byte strings. `Peg` is the reference meaning of a
    grammar-free tree; the compiler and the machine are proved against it. */
module LpegTree {
  import Basics

  type Byte = Basics.Byte

  type Charset = set<Byte>

  const FullSet: Charset := set b: Byte | 0 <= b < 256

  datatype Tree =
    | TChar(n: Byte)
    | TSet(cs: Charset)
    | TAny
    | TTrue
    | TFalse
    | TRep(body: Tree)
    | TSeq(p1: Tree, p2: Tree)
    | TChoice(p1: Tree, p2: Tree)
    | TNot(body: Tree)
    | TAnd(body: Tree)
    | TBehind(body: Tree, back: nat)
    | TCall(rule: nat)
    | TGrammar(rules: seq<Tree>)

  /** The three patterns that consume exactly one byte taken from a set. */
  function ToCharset(p: Tree): (r: (bool, Charset))
  {
    match p
    case TSet(cs) => (true, cs)
    case TChar(c) => (true, {c})
    case TAny => (true, FullSet)
    case _ => (false, {})
  }

  datatype Res = Fail | Ok(pos: nat)

  /** Meaning of a grammar-free tree at position `i` of subject `s`. A repetition stops at the
      first failure of its body; a body that succeeds without consuming has no meaning in LPeg
      (the library refuses such patterns), and stops the repetition here. */
  function Peg(p: Tree, s: seq<Byte>, i: nat): (r: Res)
    requires i <= |s|
    ensures r.Ok? ==> i <= r.pos <= |s|
    ensures p.TRep? ==> r.Ok?
    decreases p, |s| - i
  {
    match p
    case TChar(c) => if i < |s| && s[i] == c then Ok(i + 1) else Fail
    case TSet(cs) => if i < |s| && s[i] in cs then Ok(i + 1) else Fail
    case TAny => if i < |s| then Ok(i + 1) else Fail
    case TTrue => Ok(i)
    case TFalse => Fail
    case TRep(q) =>
      (match Peg(q, s, i)
       case Fail => Ok(i)
       case Ok(j) => if i < j then Peg(p, s, j) else Ok(i))
    case TSeq(q1, q2) =>
      (match Peg(q1, s, i)
       case Fail => Fail
       case Ok(j) => Peg(q2, s, j))
    case TChoice(q1, q2) =>
      (match Peg(q1, s, i)
       case Fail => Peg(q2, s, i)
       case Ok(j) => Ok(j))
    case TNot(q) => if Peg(q, s, i).Fail? then Ok(i) else Fail
    case TAnd(q) => if Peg(q, s, i).Fail? then Fail else Ok(i)
    case TBehind(q, n) => if i < n || Peg(q, s, i - n).Fail? then Fail else Ok(i)
    case TCall(_) => Fail
    case TGrammar(_) => Fail
  }
}
