/** The tables of lua-crypt.c. */
module DesTables {

  /** Eight tables of 64 words. */
  type Boxes = t: seq<seq<bv32>> | |t| == 8 && forall i | 0 <= i < 8 :: |t[i]| == 64
    witness seq(8, _ => seq(64, _ => 0))

  function Sb1(i: nat): bv32
    requires i < 64
  {
    match i
    case 0 => 0x01010400 case 1 => 0x00000000 case 2 => 0x00010000 case 3 => 0x01010404
    case 4 => 0x01010004 case 5 => 0x00010404 case 6 => 0x00000004 case 7 => 0x00010000
    case 8 => 0x00000400 case 9 => 0x01010400 case 10 => 0x01010404 case 11 => 0x00000400
    case 12 => 0x01000404 case 13 => 0x01010004 case 14 => 0x01000000 case 15 => 0x00000004
    case 16 => 0x00000404 case 17 => 0x01000400 case 18 => 0x01000400 case 19 => 0x00010400
    case 20 => 0x00010400 case 21 => 0x01010000 case 22 => 0x01010000 case 23 => 0x01000404
    case 24 => 0x00010004 case 25 => 0x01000004 case 26 => 0x01000004 case 27 => 0x00010004
    case 28 => 0x00000000 case 29 => 0x00000404 case 30 => 0x00010404 case 31 => 0x01000000
    case 32 => 0x00010000 case 33 => 0x01010404 case 34 => 0x00000004 case 35 => 0x01010000
    case 36 => 0x01010400 case 37 => 0x01000000 case 38 => 0x01000000 case 39 => 0x00000400
    case 40 => 0x01010004 case 41 => 0x00010000 case 42 => 0x00010400 case 43 => 0x01000004
    case 44 => 0x00000400 case 45 => 0x00000004 case 46 => 0x01000404 case 47 => 0x00010404
    case 48 => 0x01010404 case 49 => 0x00010004 case 50 => 0x01010000 case 51 => 0x01000404
    case 52 => 0x01000004 case 53 => 0x00000404 case 54 => 0x00010404 case 55 => 0x01010400
    case 56 => 0x00000404 case 57 => 0x01000400 case 58 => 0x01000400 case 59 => 0x00000000
    case 60 => 0x00010004 case 61 => 0x00010400 case 62 => 0x00000000 case _ => 0x01010004
  }

  function Sb2(i: nat): bv32
    requires i < 64
  {
    match i
    case 0 => 0x80108020 case 1 => 0x80008000 case 2 => 0x00008000 case 3 => 0x00108020
    case 4 => 0x00100000 case 5 => 0x00000020 case 6 => 0x80100020 case 7 => 0x80008020
    case 8 => 0x80000020 case 9 => 0x80108020 case 10 => 0x80108000 case 11 => 0x80000000
    case 12 => 0x80008000 case 13 => 0x00100000 case 14 => 0x00000020 case 15 => 0x80100020
    case 16 => 0x00108000 case 17 => 0x00100020 case 18 => 0x80008020 case 19 => 0x00000000
    case 20 => 0x80000000 case 21 => 0x00008000 case 22 => 0x00108020 case 23 => 0x80100000
    case 24 => 0x00100020 case 25 => 0x80000020 case 26 => 0x00000000 case 27 => 0x00108000
    case 28 => 0x00008020 case 29 => 0x80108000 case 30 => 0x80100000 case 31 => 0x00008020
    case 32 => 0x00000000 case 33 => 0x00108020 case 34 => 0x80100020 case 35 => 0x00100000
    case 36 => 0x80008020 case 37 => 0x80100000 case 38 => 0x80108000 case 39 => 0x00008000
    case 40 => 0x80100000 case 41 => 0x80008000 case 42 => 0x00000020 case 43 => 0x80108020
    case 44 => 0x00108020 case 45 => 0x00000020 case 46 => 0x00008000 case 47 => 0x80000000
    case 48 => 0x00008020 case 49 => 0x80108000 case 50 => 0x00100000 case 51 => 0x80000020
    case 52 => 0x00100020 case 53 => 0x80008020 case 54 => 0x80000020 case 55 => 0x00100020
    case 56 => 0x00108000 case 57 => 0x00000000 case 58 => 0x80008000 case 59 => 0x00008020
    case 60 => 0x80000000 case 61 => 0x80100020 case 62 => 0x80108020 case _ => 0x00108000
  }

  function Sb3(i: nat): bv32
    requires i < 64
  {
    match i
    case 0 => 0x00000208 case 1 => 0x08020200 case 2 => 0x00000000 case 3 => 0x08020008
    case 4 => 0x08000200 case 5 => 0x00000000 case 6 => 0x00020208 case 7 => 0x08000200
    case 8 => 0x00020008 case 9 => 0x08000008 case 10 => 0x08000008 case 11 => 0x00020000
    case 12 => 0x08020208 case 13 => 0x00020008 case 14 => 0x08020000 case 15 => 0x00000208
    case 16 => 0x08000000 case 17 => 0x00000008 case 18 => 0x08020200 case 19 => 0x00000200
    case 20 => 0x00020200 case 21 => 0x08020000 case 22 => 0x08020008 case 23 => 0x00020208
    case 24 => 0x08000208 case 25 => 0x00020200 case 26 => 0x00020000 case 27 => 0x08000208
    case 28 => 0x00000008 case 29 => 0x08020208 case 30 => 0x00000200 case 31 => 0x08000000
    case 32 => 0x08020200 case 33 => 0x08000000 case 34 => 0x00020008 case 35 => 0x00000208
    case 36 => 0x00020000 case 37 => 0x08020200 case 38 => 0x08000200 case 39 => 0x00000000
    case 40 => 0x00000200 case 41 => 0x00020008 case 42 => 0x08020208 case 43 => 0x08000200
    case 44 => 0x08000008 case 45 => 0x00000200 case 46 => 0x00000000 case 47 => 0x08020008
    case 48 => 0x08000208 case 49 => 0x00020000 case 50 => 0x08000000 case 51 => 0x08020208
    case 52 => 0x00000008 case 53 => 0x00020208 case 54 => 0x00020200 case 55 => 0x08000008
    case 56 => 0x08020000 case 57 => 0x08000208 case 58 => 0x00000208 case 59 => 0x08020000
    case 60 => 0x00020208 case 61 => 0x00000008 case 62 => 0x08020008 case _ => 0x00020200
  }

  function Sb4(i: nat): bv32
    requires i < 64
  {
    match i
    case 0 => 0x00802001 case 1 => 0x00002081 case 2 => 0x00002081 case 3 => 0x00000080
    case 4 => 0x00802080 case 5 => 0x00800081 case 6 => 0x00800001 case 7 => 0x00002001
    case 8 => 0x00000000 case 9 => 0x00802000 case 10 => 0x00802000 case 11 => 0x00802081
    case 12 => 0x00000081 case 13 => 0x00000000 case 14 => 0x00800080 case 15 => 0x00800001
    case 16 => 0x00000001 case 17 => 0x00002000 case 18 => 0x00800000 case 19 => 0x00802001
    case 20 => 0x00000080 case 21 => 0x00800000 case 22 => 0x00002001 case 23 => 0x00002080
    case 24 => 0x00800081 case 25 => 0x00000001 case 26 => 0x00002080 case 27 => 0x00800080
    case 28 => 0x00002000 case 29 => 0x00802080 case 30 => 0x00802081 case 31 => 0x00000081
    case 32 => 0x00800080 case 33 => 0x00800001 case 34 => 0x00802000 case 35 => 0x00802081
    case 36 => 0x00000081 case 37 => 0x00000000 case 38 => 0x00000000 case 39 => 0x00802000
    case 40 => 0x00002080 case 41 => 0x00800080 case 42 => 0x00800081 case 43 => 0x00000001
    case 44 => 0x00802001 case 45 => 0x00002081 case 46 => 0x00002081 case 47 => 0x00000080
    case 48 => 0x00802081 case 49 => 0x00000081 case 50 => 0x00000001 case 51 => 0x00002000
    case 52 => 0x00800001 case 53 => 0x00002001 case 54 => 0x00802080 case 55 => 0x00800081
    case 56 => 0x00002001 case 57 => 0x00002080 case 58 => 0x00800000 case 59 => 0x00802001
    case 60 => 0x00000080 case 61 => 0x00800000 case 62 => 0x00002000 case _ => 0x00802080
  }

  function Sb5(i: nat): bv32
    requires i < 64
  {
    match i
    case 0 => 0x00000100 case 1 => 0x02080100 case 2 => 0x02080000 case 3 => 0x42000100
    case 4 => 0x00080000 case 5 => 0x00000100 case 6 => 0x40000000 case 7 => 0x02080000
    case 8 => 0x40080100 case 9 => 0x00080000 case 10 => 0x02000100 case 11 => 0x40080100
    case 12 => 0x42000100 case 13 => 0x42080000 case 14 => 0x00080100 case 15 => 0x40000000
    case 16 => 0x02000000 case 17 => 0x40080000 case 18 => 0x40080000 case 19 => 0x00000000
    case 20 => 0x40000100 case 21 => 0x42080100 case 22 => 0x42080100 case 23 => 0x02000100
    case 24 => 0x42080000 case 25 => 0x40000100 case 26 => 0x00000000 case 27 => 0x42000000
    case 28 => 0x02080100 case 29 => 0x02000000 case 30 => 0x42000000 case 31 => 0x00080100
    case 32 => 0x00080000 case 33 => 0x42000100 case 34 => 0x00000100 case 35 => 0x02000000
    case 36 => 0x40000000 case 37 => 0x02080000 case 38 => 0x42000100 case 39 => 0x40080100
    case 40 => 0x02000100 case 41 => 0x40000000 case 42 => 0x42080000 case 43 => 0x02080100
    case 44 => 0x40080100 case 45 => 0x00000100 case 46 => 0x02000000 case 47 => 0x42080000
    case 48 => 0x42080100 case 49 => 0x00080100 case 50 => 0x42000000 case 51 => 0x42080100
    case 52 => 0x02080000 case 53 => 0x00000000 case 54 => 0x40080000 case 55 => 0x42000000
    case 56 => 0x00080100 case 57 => 0x02000100 case 58 => 0x40000100 case 59 => 0x00080000
    case 60 => 0x00000000 case 61 => 0x40080000 case 62 => 0x02080100 case _ => 0x40000100
  }

  function Sb6(i: nat): bv32
    requires i < 64
  {
    match i
    case 0 => 0x20000010 case 1 => 0x20400000 case 2 => 0x00004000 case 3 => 0x20404010
    case 4 => 0x20400000 case 5 => 0x00000010 case 6 => 0x20404010 case 7 => 0x00400000
    case 8 => 0x20004000 case 9 => 0x00404010 case 10 => 0x00400000 case 11 => 0x20000010
    case 12 => 0x00400010 case 13 => 0x20004000 case 14 => 0x20000000 case 15 => 0x00004010
    case 16 => 0x00000000 case 17 => 0x00400010 case 18 => 0x20004010 case 19 => 0x00004000
    case 20 => 0x00404000 case 21 => 0x20004010 case 22 => 0x00000010 case 23 => 0x20400010
    case 24 => 0x20400010 case 25 => 0x00000000 case 26 => 0x00404010 case 27 => 0x20404000
    case 28 => 0x00004010 case 29 => 0x00404000 case 30 => 0x20404000 case 31 => 0x20000000
    case 32 => 0x20004000 case 33 => 0x00000010 case 34 => 0x20400010 case 35 => 0x00404000
    case 36 => 0x20404010 case 37 => 0x00400000 case 38 => 0x00004010 case 39 => 0x20000010
    case 40 => 0x00400000 case 41 => 0x20004000 case 42 => 0x20000000 case 43 => 0x00004010
    case 44 => 0x20000010 case 45 => 0x20404010 case 46 => 0x00404000 case 47 => 0x20400000
    case 48 => 0x00404010 case 49 => 0x20404000 case 50 => 0x00000000 case 51 => 0x20400010
    case 52 => 0x00000010 case 53 => 0x00004000 case 54 => 0x20400000 case 55 => 0x00404010
    case 56 => 0x00004000 case 57 => 0x00400010 case 58 => 0x20004010 case 59 => 0x00000000
    case 60 => 0x20404000 case 61 => 0x20000000 case 62 => 0x00400010 case _ => 0x20004010
  }

  function Sb7(i: nat): bv32
    requires i < 64
  {
    match i
    case 0 => 0x00200000 case 1 => 0x04200002 case 2 => 0x04000802 case 3 => 0x00000000
    case 4 => 0x00000800 case 5 => 0x04000802 case 6 => 0x00200802 case 7 => 0x04200800
    case 8 => 0x04200802 case 9 => 0x00200000 case 10 => 0x00000000 case 11 => 0x04000002
    case 12 => 0x00000002 case 13 => 0x04000000 case 14 => 0x04200002 case 15 => 0x00000802
    case 16 => 0x04000800 case 17 => 0x00200802 case 18 => 0x00200002 case 19 => 0x04000800
    case 20 => 0x04000002 case 21 => 0x04200000 case 22 => 0x04200800 case 23 => 0x00200002
    case 24 => 0x04200000 case 25 => 0x00000800 case 26 => 0x00000802 case 27 => 0x04200802
    case 28 => 0x00200800 case 29 => 0x00000002 case 30 => 0x04000000 case 31 => 0x00200800
    case 32 => 0x04000000 case 33 => 0x00200800 case 34 => 0x00200000 case 35 => 0x04000802
    case 36 => 0x04000802 case 37 => 0x04200002 case 38 => 0x04200002 case 39 => 0x00000002
    case 40 => 0x00200002 case 41 => 0x04000000 case 42 => 0x04000800 case 43 => 0x00200000
    case 44 => 0x04200800 case 45 => 0x00000802 case 46 => 0x00200802 case 47 => 0x04200800
    case 48 => 0x00000802 case 49 => 0x04000002 case 50 => 0x04200802 case 51 => 0x04200000
    case 52 => 0x00200800 case 53 => 0x00000000 case 54 => 0x00000002 case 55 => 0x04200802
    case 56 => 0x00000000 case 57 => 0x00200802 case 58 => 0x04200000 case 59 => 0x00000800
    case 60 => 0x04000002 case 61 => 0x04000800 case 62 => 0x00000800 case _ => 0x00200002
  }

  function Sb8(i: nat): bv32
    requires i < 64
  {
    match i
    case 0 => 0x10001040 case 1 => 0x00001000 case 2 => 0x00040000 case 3 => 0x10041040
    case 4 => 0x10000000 case 5 => 0x10001040 case 6 => 0x00000040 case 7 => 0x10000000
    case 8 => 0x00040040 case 9 => 0x10040000 case 10 => 0x10041040 case 11 => 0x00041000
    case 12 => 0x10041000 case 13 => 0x00041040 case 14 => 0x00001000 case 15 => 0x00000040
    case 16 => 0x10040000 case 17 => 0x10000040 case 18 => 0x10001000 case 19 => 0x00001040
    case 20 => 0x00041000 case 21 => 0x00040040 case 22 => 0x10040040 case 23 => 0x10041000
    case 24 => 0x00001040 case 25 => 0x00000000 case 26 => 0x00000000 case 27 => 0x10040040
    case 28 => 0x10000040 case 29 => 0x10001000 case 30 => 0x00041040 case 31 => 0x00040000
    case 32 => 0x00041040 case 33 => 0x00040000 case 34 => 0x10041000 case 35 => 0x00001000
    case 36 => 0x00000040 case 37 => 0x10040040 case 38 => 0x00001000 case 39 => 0x00041040
    case 40 => 0x10001000 case 41 => 0x00000040 case 42 => 0x10000040 case 43 => 0x10040000
    case 44 => 0x10040040 case 45 => 0x10000000 case 46 => 0x00040000 case 47 => 0x10001040
    case 48 => 0x00000000 case 49 => 0x10041040 case 50 => 0x00040040 case 51 => 0x10000040
    case 52 => 0x10040000 case 53 => 0x10001000 case 54 => 0x10001040 case 55 => 0x00000000
    case 56 => 0x10041040 case 57 => 0x00041000 case 58 => 0x00041000 case 59 => 0x00001040
    case 60 => 0x00001040 case 61 => 0x00040040 case 62 => 0x10000000 case _ => 0x10041000
  }

  function Sb(n: nat, i: nat): bv32
    requires n < 8 && i < 64
  {
    match n
    case 0 => Sb1(i)
    case 1 => Sb2(i)
    case 2 => Sb3(i)
    case 3 => Sb4(i)
    case 4 => Sb5(i)
    case 5 => Sb6(i)
    case 6 => Sb7(i)
    case _ => Sb8(i)
  }

  /** The tables `SB1` to `SB8`. */
  function Tables(): Boxes
  {
    seq(8, n requires 0 <= n < 8 => seq(64, i requires 0 <= i < 64 => Sb(n, i)))
  }

  function LHs(i: nat): bv32
    requires i < 16
  {
    match i
    case 0 => 0x00000000 case 1 => 0x00000001 case 2 => 0x00000100 case 3 => 0x00000101
    case 4 => 0x00010000 case 5 => 0x00010001 case 6 => 0x00010100 case 7 => 0x00010101
    case 8 => 0x01000000 case 9 => 0x01000001 case 10 => 0x01000100 case 11 => 0x01000101
    case 12 => 0x01010000 case 13 => 0x01010001 case 14 => 0x01010100 case _ => 0x01010101
  }

  function RHs(i: nat): bv32
    requires i < 16
  {
    match i
    case 0 => 0x00000000 case 1 => 0x01000000 case 2 => 0x00010000 case 3 => 0x01010000
    case 4 => 0x00000100 case 5 => 0x01000100 case 6 => 0x00010100 case 7 => 0x01010100
    case 8 => 0x00000001 case 9 => 0x01000001 case 10 => 0x00010001 case 11 => 0x01010001
    case 12 => 0x00000101 case 13 => 0x01000101 case 14 => 0x00010101 case _ => 0x01010101
  }
}
