/** What is known about the tables of FIPS PUB 46-3 apart from their entries: the rules behind
    IP, PC-1 and the shifts, and the inverse of PC-2. */
module FipsTables {
  import opened Bits
  import opened Fips46

  // IP and PC-1.

  /** IP collects the even columns of the 8 by 8 block of bits, then the odd ones, from the
      bottom up. */
  lemma IpRule(row: nat, col: nat)
    requires row < 8 && col < 8
    ensures DES.ip[8 * row + col] == 8 * (7 - col) + (if row < 4 then 2 * row + 2 else 2 * row - 7)
  {
    Grid(row, col);
    IpRow(8 * row + col);
  }

  lemma Grid(row: nat, col: nat)
    requires row < 8 && col < 8
    ensures (8 * row + col) / 8 == row && (8 * row + col) % 8 == col && (8 * row + col < 32 <==> row < 4)
  {
  }

  lemma IpRow(i: nat)
    requires i < 64
    ensures IpBit(i) == 8 * (7 - i % 8) + (if i < 32 then 2 * (i / 8) + 2 else 2 * (i / 8) - 7)
  {
    if i < 32 {
      IpUpper(i);
    } else {
      IpLower(i);
    }
  }

  lemma IpUpper(i: nat)
    requires i < 32
    ensures IpBit(i) == 8 * (7 - i % 8) + 2 * (i / 8) + 2
  {
  }

  lemma IpLower(i: nat)
    requires 32 <= i < 64
    ensures IpBit(i) == 8 * (7 - i % 8) + 2 * (i / 8) - 7
  {
  }

  /** PC-1 fills C with the first columns from the bottom up, D with the seventh, sixth and
      fifth, and with what is left of the fourth. */
  function Pc1Place(i: nat): int
    requires i < 56
  {
    if i < 28 then 57 - 8 * (i % 8) + i / 8
    else if i < 52 then 63 - 8 * ((i - 28) % 8) - (i - 28) / 8
    else 28 - 8 * (i - 52)
  }

  lemma Pc1Rule(i: nat)
    requires i < 56
    ensures DES.pc1[i] == Pc1Place(i)
  {
    Pc1Entry(i);
  }

  lemma Pc1Entry(i: nat)
    requires i < 56
    ensures Pc1Bit(i) == Pc1Place(i)
  {
    if i < 28 {
      Pc1Left(i);
    } else {
      Pc1Right(i);
    }
  }

  lemma Pc1Left(i: nat)
    requires i < 28
    ensures Pc1Bit(i) == 57 - 8 * (i % 8) + i / 8
  {
  }

  lemma Pc1Right(i: nat)
    requires 28 <= i < 56
    ensures Pc1Bit(i) == if i < 52 then 63 - 8 * ((i - 28) % 8) - (i - 28) / 8 else 28 - 8 * (i - 52)
  {
  }

  // PC-2.

  /** Where PC-2 puts each bit of C D, counted from 0; 48 for the eight bits it leaves out. */
  function Pc2Position(v: nat): nat
    requires 1 <= v <= 56
  {
    (match (v - 1) / 4
     case 0 => [4, 23, 6, 15]
     case 1 => [5, 9, 19, 17]
     case 2 => [48, 11, 2, 14]
     case 3 => [22, 0, 8, 18]
     case 4 => [1, 48, 13, 21]
     case 5 => [10, 48, 12, 3]
     case 6 => [48, 16, 20, 7]
     case 7 => [46, 30, 26, 47]
     case 8 => [34, 40, 48, 45]
     case 9 => [27, 48, 38, 31]
     case 10 => [24, 43, 48, 36]
     case 11 => [33, 42, 28, 35]
     case 12 => [37, 44, 32, 25]
     case _ => [41, 48, 29, 39]
    )[(v - 1) % 4]
  }

  /** PC-2 leaves out bits 9, 18, 22, 25, 35, 38, 43 and 54 and puts each other one in its place;
      C goes to the first half of the subkey, D to the second. */
  lemma Pc2Rule(v: nat)
    requires 1 <= v <= 56
    ensures Pc2Position(v) == 48 <==> v in {9, 18, 22, 25, 35, 38, 43, 54}
    ensures Pc2Position(v) < 48 ==> DES.pc2[Pc2Position(v)] == v && (Pc2Position(v) < 24 <==> v <= 28)
  {
    Pc2Entry(v);
  }

  lemma Pc2Entry(v: nat)
    requires 1 <= v <= 56
    ensures Pc2Position(v) <= 48
    ensures Pc2Position(v) == 48 <==> v in {9, 18, 22, 25, 35, 38, 43, 54}
    ensures Pc2Position(v) < 48 ==> Pc2Bit(Pc2Position(v)) == v && (Pc2Position(v) < 24 <==> v <= 28)
  {
  }

  /** The position of each input of P in its output. */
  lemma PRule(v: nat)
    requires 1 <= v <= 32
    ensures PPosition(v) < 32 && DES.p[PPosition(v)] == v
  {
    POnto(v);
  }
}
