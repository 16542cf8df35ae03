/** The selection functions S1 to S8 of FIPS PUB 46-3, row by row: the entries as hexadecimal
    digits, and every row a permutation of 0 to 15. */
module FipsBoxes {
  import opened Bits
  import opened Fips46

  function Hex(a: nat, b: nat, c: nat, d: nat): nat {
    ((a * 16 + b) * 16 + c) * 16 + d
  }

  predicate Digits(r: seq<Nibble>, a: nat, b: nat, c: nat, d: nat)
    requires |r| == 16
  {
    && Hex(r[0], r[1], r[2], r[3]) == a && Hex(r[4], r[5], r[6], r[7]) == b
    && Hex(r[8], r[9], r[10], r[11]) == c && Hex(r[12], r[13], r[14], r[15]) == d
  }

  /** Sixteen entries that take all sixteen values: a permutation. */
  predicate Permutation(r: seq<Nibble>) {
    && |r| == 16
    && 0 in r && 1 in r && 2 in r && 3 in r && 4 in r && 5 in r && 6 in r && 7 in r
    && 8 in r && 9 in r && 10 in r && 11 in r && 12 in r && 13 in r && 14 in r && 15 in r
  }

  lemma S1Digits(r0: seq<Nibble>, r1: seq<Nibble>, r2: seq<Nibble>, r3: seq<Nibble>)
    requires r0 == S1(0) && r1 == S1(1) && r2 == S1(2) && r3 == S1(3)
    ensures |r0| == |r1| == |r2| == |r3| == 16
    ensures Digits(r0, 0xe4d1, 0x2fb8, 0x3a6c, 0x5907) && Digits(r1, 0x0f74, 0xe2d1, 0xa6cb, 0x9538)
    ensures Digits(r2, 0x41e8, 0xd62b, 0xfc97, 0x3a50) && Digits(r3, 0xfc82, 0x4917, 0x5b3e, 0xa06d)
  {
  }

  lemma S2Digits(r0: seq<Nibble>, r1: seq<Nibble>, r2: seq<Nibble>, r3: seq<Nibble>)
    requires r0 == S2(0) && r1 == S2(1) && r2 == S2(2) && r3 == S2(3)
    ensures |r0| == |r1| == |r2| == |r3| == 16
    ensures Digits(r0, 0xf18e, 0x6b34, 0x972d, 0xc05a) && Digits(r1, 0x3d47, 0xf28e, 0xc01a, 0x69b5)
    ensures Digits(r2, 0x0e7b, 0xa4d1, 0x58c6, 0x932f) && Digits(r3, 0xd8a1, 0x3f42, 0xb67c, 0x05e9)
  {
  }

  lemma S3Digits(r0: seq<Nibble>, r1: seq<Nibble>, r2: seq<Nibble>, r3: seq<Nibble>)
    requires r0 == S3(0) && r1 == S3(1) && r2 == S3(2) && r3 == S3(3)
    ensures |r0| == |r1| == |r2| == |r3| == 16
    ensures Digits(r0, 0xa09e, 0x63f5, 0x1dc7, 0xb428) && Digits(r1, 0xd709, 0x346a, 0x285e, 0xcbf1)
    ensures Digits(r2, 0xd649, 0x8f30, 0xb12c, 0x5ae7) && Digits(r3, 0x1ad0, 0x6987, 0x4fe3, 0xb52c)
  {
  }

  lemma S4Digits(r0: seq<Nibble>, r1: seq<Nibble>, r2: seq<Nibble>, r3: seq<Nibble>)
    requires r0 == S4(0) && r1 == S4(1) && r2 == S4(2) && r3 == S4(3)
    ensures |r0| == |r1| == |r2| == |r3| == 16
    ensures Digits(r0, 0x7de3, 0x069a, 0x1285, 0xbc4f) && Digits(r1, 0xd8b5, 0x6f03, 0x472c, 0x1ae9)
    ensures Digits(r2, 0xa690, 0xcb7d, 0xf13e, 0x5284) && Digits(r3, 0x3f06, 0xa1d8, 0x945b, 0xc72e)
  {
  }

  lemma S5Digits(r0: seq<Nibble>, r1: seq<Nibble>, r2: seq<Nibble>, r3: seq<Nibble>)
    requires r0 == S5(0) && r1 == S5(1) && r2 == S5(2) && r3 == S5(3)
    ensures |r0| == |r1| == |r2| == |r3| == 16
    ensures Digits(r0, 0x2c41, 0x7ab6, 0x853f, 0xd0e9) && Digits(r1, 0xeb2c, 0x47d1, 0x50fa, 0x3986)
    ensures Digits(r2, 0x421b, 0xad78, 0xf9c5, 0x630e) && Digits(r3, 0xb8c7, 0x1e2d, 0x6f09, 0xa453)
  {
  }

  lemma S6Digits(r0: seq<Nibble>, r1: seq<Nibble>, r2: seq<Nibble>, r3: seq<Nibble>)
    requires r0 == S6(0) && r1 == S6(1) && r2 == S6(2) && r3 == S6(3)
    ensures |r0| == |r1| == |r2| == |r3| == 16
    ensures Digits(r0, 0xc1af, 0x9268, 0x0d34, 0xe75b) && Digits(r1, 0xaf42, 0x7c95, 0x61de, 0x0b38)
    ensures Digits(r2, 0x9ef5, 0x28c3, 0x704a, 0x1db6) && Digits(r3, 0x432c, 0x95fa, 0xbe17, 0x608d)
  {
  }

  lemma S7Digits(r0: seq<Nibble>, r1: seq<Nibble>, r2: seq<Nibble>, r3: seq<Nibble>)
    requires r0 == S7(0) && r1 == S7(1) && r2 == S7(2) && r3 == S7(3)
    ensures |r0| == |r1| == |r2| == |r3| == 16
    ensures Digits(r0, 0x4b2e, 0xf08d, 0x3c97, 0x5a61) && Digits(r1, 0xd0b7, 0x491a, 0xe35c, 0x2f86)
    ensures Digits(r2, 0x14bd, 0xc37e, 0xaf68, 0x0592) && Digits(r3, 0x6bd8, 0x14a7, 0x950f, 0xe23c)
  {
  }

  lemma S8Digits(r0: seq<Nibble>, r1: seq<Nibble>, r2: seq<Nibble>, r3: seq<Nibble>)
    requires r0 == S8(0) && r1 == S8(1) && r2 == S8(2) && r3 == S8(3)
    ensures |r0| == |r1| == |r2| == |r3| == 16
    ensures Digits(r0, 0xd284, 0x6fb1, 0xa93e, 0x50c7) && Digits(r1, 0x1fd8, 0xa374, 0xc56b, 0x0e92)
    ensures Digits(r2, 0x7b41, 0x9ce2, 0x06ad, 0xf358) && Digits(r3, 0x21e7, 0x4a8d, 0xfc90, 0x356b)
  {
  }

  lemma S1Upper(r: seq<Nibble>, q: seq<Nibble>)
    requires r == S1(0) && q == S1(1)
    ensures Permutation(r) && Permutation(q)
  {
  }

  lemma S1Lower(r: seq<Nibble>, q: seq<Nibble>)
    requires r == S1(2) && q == S1(3)
    ensures Permutation(r) && Permutation(q)
  {
  }

  lemma S2Upper(r: seq<Nibble>, q: seq<Nibble>)
    requires r == S2(0) && q == S2(1)
    ensures Permutation(r) && Permutation(q)
  {
  }

  lemma S2Lower(r: seq<Nibble>, q: seq<Nibble>)
    requires r == S2(2) && q == S2(3)
    ensures Permutation(r) && Permutation(q)
  {
  }

  lemma S3Upper(r: seq<Nibble>, q: seq<Nibble>)
    requires r == S3(0) && q == S3(1)
    ensures Permutation(r) && Permutation(q)
  {
  }

  lemma S3Lower(r: seq<Nibble>, q: seq<Nibble>)
    requires r == S3(2) && q == S3(3)
    ensures Permutation(r) && Permutation(q)
  {
  }

  lemma S4Upper(r: seq<Nibble>, q: seq<Nibble>)
    requires r == S4(0) && q == S4(1)
    ensures Permutation(r) && Permutation(q)
  {
  }

  lemma S4Lower(r: seq<Nibble>, q: seq<Nibble>)
    requires r == S4(2) && q == S4(3)
    ensures Permutation(r) && Permutation(q)
  {
  }

  lemma S5Upper(r: seq<Nibble>, q: seq<Nibble>)
    requires r == S5(0) && q == S5(1)
    ensures Permutation(r) && Permutation(q)
  {
  }

  lemma S5Lower(r: seq<Nibble>, q: seq<Nibble>)
    requires r == S5(2) && q == S5(3)
    ensures Permutation(r) && Permutation(q)
  {
  }

  lemma S6Upper(r: seq<Nibble>, q: seq<Nibble>)
    requires r == S6(0) && q == S6(1)
    ensures Permutation(r) && Permutation(q)
  {
  }

  lemma S6Lower(r: seq<Nibble>, q: seq<Nibble>)
    requires r == S6(2) && q == S6(3)
    ensures Permutation(r) && Permutation(q)
  {
  }

  lemma S7Upper(r: seq<Nibble>, q: seq<Nibble>)
    requires r == S7(0) && q == S7(1)
    ensures Permutation(r) && Permutation(q)
  {
  }

  lemma S7Lower(r: seq<Nibble>, q: seq<Nibble>)
    requires r == S7(2) && q == S7(3)
    ensures Permutation(r) && Permutation(q)
  {
  }

  lemma S8Upper(r: seq<Nibble>, q: seq<Nibble>)
    requires r == S8(0) && q == S8(1)
    ensures Permutation(r) && Permutation(q)
  {
  }

  lemma S8Lower(r: seq<Nibble>, q: seq<Nibble>)
    requires r == S8(2) && q == S8(3)
    ensures Permutation(r) && Permutation(q)
  {
  }

  lemma RowOfFour(p: seq<Nibble>, q: seq<Nibble>, r: seq<Nibble>, s: seq<Nibble>, row: nat)
    requires Permutation(p) && Permutation(q) && Permutation(r) && Permutation(s) && row < 4
    ensures Permutation((p + q + r + s)[16 * row..16 * row + 16])
  {
    assert (p + q + r + s)[16 * row..16 * row + 16]
      == if row == 0 then p else if row == 1 then q else if row == 2 then r else s;
  }

  lemma S1Rows(p: seq<Nibble>, q: seq<Nibble>, r: seq<Nibble>, s: seq<Nibble>, row: nat)
    requires p == S1(0) && q == S1(1) && r == S1(2) && s == S1(3) && row < 4
    ensures Permutation((p + q + r + s)[16 * row..16 * row + 16])
  {
    S1Upper(p, q);
    S1Lower(r, s);
    RowOfFour(p, q, r, s, row);
  }

  lemma S2Rows(p: seq<Nibble>, q: seq<Nibble>, r: seq<Nibble>, s: seq<Nibble>, row: nat)
    requires p == S2(0) && q == S2(1) && r == S2(2) && s == S2(3) && row < 4
    ensures Permutation((p + q + r + s)[16 * row..16 * row + 16])
  {
    S2Upper(p, q);
    S2Lower(r, s);
    RowOfFour(p, q, r, s, row);
  }

  lemma S3Rows(p: seq<Nibble>, q: seq<Nibble>, r: seq<Nibble>, s: seq<Nibble>, row: nat)
    requires p == S3(0) && q == S3(1) && r == S3(2) && s == S3(3) && row < 4
    ensures Permutation((p + q + r + s)[16 * row..16 * row + 16])
  {
    S3Upper(p, q);
    S3Lower(r, s);
    RowOfFour(p, q, r, s, row);
  }

  lemma S4Rows(p: seq<Nibble>, q: seq<Nibble>, r: seq<Nibble>, s: seq<Nibble>, row: nat)
    requires p == S4(0) && q == S4(1) && r == S4(2) && s == S4(3) && row < 4
    ensures Permutation((p + q + r + s)[16 * row..16 * row + 16])
  {
    S4Upper(p, q);
    S4Lower(r, s);
    RowOfFour(p, q, r, s, row);
  }

  lemma S5Rows(p: seq<Nibble>, q: seq<Nibble>, r: seq<Nibble>, s: seq<Nibble>, row: nat)
    requires p == S5(0) && q == S5(1) && r == S5(2) && s == S5(3) && row < 4
    ensures Permutation((p + q + r + s)[16 * row..16 * row + 16])
  {
    S5Upper(p, q);
    S5Lower(r, s);
    RowOfFour(p, q, r, s, row);
  }

  lemma S6Rows(p: seq<Nibble>, q: seq<Nibble>, r: seq<Nibble>, s: seq<Nibble>, row: nat)
    requires p == S6(0) && q == S6(1) && r == S6(2) && s == S6(3) && row < 4
    ensures Permutation((p + q + r + s)[16 * row..16 * row + 16])
  {
    S6Upper(p, q);
    S6Lower(r, s);
    RowOfFour(p, q, r, s, row);
  }

  lemma S7Rows(p: seq<Nibble>, q: seq<Nibble>, r: seq<Nibble>, s: seq<Nibble>, row: nat)
    requires p == S7(0) && q == S7(1) && r == S7(2) && s == S7(3) && row < 4
    ensures Permutation((p + q + r + s)[16 * row..16 * row + 16])
  {
    S7Upper(p, q);
    S7Lower(r, s);
    RowOfFour(p, q, r, s, row);
  }

  lemma S8Rows(p: seq<Nibble>, q: seq<Nibble>, r: seq<Nibble>, s: seq<Nibble>, row: nat)
    requires p == S8(0) && q == S8(1) && r == S8(2) && s == S8(3) && row < 4
    ensures Permutation((p + q + r + s)[16 * row..16 * row + 16])
  {
    S8Upper(p, q);
    S8Lower(r, s);
    RowOfFour(p, q, r, s, row);
  }

  /** Every row of every selection function is a permutation. */
  lemma RowsArePermutations(b: nat, row: nat)
    requires b < 8 && row < 4
    ensures |DES.s| == 8 && DES.s[b] == Box(b) && Permutation(Box(b)[16 * row..16 * row + 16])
  {
    match b
    case 0 => S1Rows(S1(0), S1(1), S1(2), S1(3), row);
    case 1 => S2Rows(S2(0), S2(1), S2(2), S2(3), row);
    case 2 => S3Rows(S3(0), S3(1), S3(2), S3(3), row);
    case 3 => S4Rows(S4(0), S4(1), S4(2), S4(3), row);
    case 4 => S5Rows(S5(0), S5(1), S5(2), S5(3), row);
    case 5 => S6Rows(S6(0), S6(1), S6(2), S6(3), row);
    case 6 => S7Rows(S7(0), S7(1), S7(2), S7(3), row);
    case _ => S8Rows(S8(0), S8(1), S8(2), S8(3), row);
  }

  /** The first entries of the rows of a box. */
  function First(b: seq<Nibble>): nat
    requires |b| == 64
  {
    Hex(b[0], b[16], b[32], b[48])
  }

  lemma FirstOfFour(p: seq<Nibble>, q: seq<Nibble>, r: seq<Nibble>, s: seq<Nibble>)
    requires |p| == |q| == |r| == |s| == 16
    ensures First(p + q + r + s) == Hex(p[0], q[0], r[0], s[0])
  {
  }

  lemma S1First(p: seq<Nibble>, q: seq<Nibble>, r: seq<Nibble>, s: seq<Nibble>)
    requires p == S1(0) && q == S1(1) && r == S1(2) && s == S1(3)
    ensures First(p + q + r + s) == 0xe04f
  {
    FirstOfFour(p, q, r, s);
  }

  lemma S2First(p: seq<Nibble>, q: seq<Nibble>, r: seq<Nibble>, s: seq<Nibble>)
    requires p == S2(0) && q == S2(1) && r == S2(2) && s == S2(3)
    ensures First(p + q + r + s) == 0xf30d
  {
    FirstOfFour(p, q, r, s);
  }

  lemma S3First(p: seq<Nibble>, q: seq<Nibble>, r: seq<Nibble>, s: seq<Nibble>)
    requires p == S3(0) && q == S3(1) && r == S3(2) && s == S3(3)
    ensures First(p + q + r + s) == 0xadd1
  {
    FirstOfFour(p, q, r, s);
  }

  lemma S4First(p: seq<Nibble>, q: seq<Nibble>, r: seq<Nibble>, s: seq<Nibble>)
    requires p == S4(0) && q == S4(1) && r == S4(2) && s == S4(3)
    ensures First(p + q + r + s) == 0x7da3
  {
    FirstOfFour(p, q, r, s);
  }

  lemma S5First(p: seq<Nibble>, q: seq<Nibble>, r: seq<Nibble>, s: seq<Nibble>)
    requires p == S5(0) && q == S5(1) && r == S5(2) && s == S5(3)
    ensures First(p + q + r + s) == 0x2e4b
  {
    FirstOfFour(p, q, r, s);
  }

  lemma S6First(p: seq<Nibble>, q: seq<Nibble>, r: seq<Nibble>, s: seq<Nibble>)
    requires p == S6(0) && q == S6(1) && r == S6(2) && s == S6(3)
    ensures First(p + q + r + s) == 0xca94
  {
    FirstOfFour(p, q, r, s);
  }

  lemma S7First(p: seq<Nibble>, q: seq<Nibble>, r: seq<Nibble>, s: seq<Nibble>)
    requires p == S7(0) && q == S7(1) && r == S7(2) && s == S7(3)
    ensures First(p + q + r + s) == 0x4d16
  {
    FirstOfFour(p, q, r, s);
  }

  lemma S8First(p: seq<Nibble>, q: seq<Nibble>, r: seq<Nibble>, s: seq<Nibble>)
    requires p == S8(0) && q == S8(1) && r == S8(2) && s == S8(3)
    ensures First(p + q + r + s) == 0xd172
  {
    FirstOfFour(p, q, r, s);
  }

  /** Which box is which. */
  lemma BoxesInOrder(b: nat)
    requires b < 8
    ensures
      First(Box(b)) == match b
                       case 0 => 0xe04f case 1 => 0xf30d case 2 => 0xadd1 case 3 => 0x7da3
                       case 4 => 0x2e4b case 5 => 0xca94 case 6 => 0x4d16 case _ => 0xd172
  {
    match b
    case 0 => S1First(S1(0), S1(1), S1(2), S1(3));
    case 1 => S2First(S2(0), S2(1), S2(2), S2(3));
    case 2 => S3First(S3(0), S3(1), S3(2), S3(3));
    case 3 => S4First(S4(0), S4(1), S4(2), S4(3));
    case 4 => S5First(S5(0), S5(1), S5(2), S5(3));
    case 5 => S6First(S6(0), S6(1), S6(2), S6(3));
    case 6 => S7First(S7(0), S7(1), S7(2), S7(3));
    case _ => S8First(S8(0), S8(1), S8(2), S8(3));
  }
}
