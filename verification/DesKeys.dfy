/** The key schedule of des_setkey (telnetd/des.c), as functions of the raw key words: two mask
    lookups for PC-1, one rotation of the original halves by the cumulative shift, and one mask
    lookup for PC-2. Proved equal to the iterated rotations of FIPS PUB 46-3. */
module DesKeys {
  import opened Bits
  import opened Fips46
  import opened FipsTables
  import opened DesMasks
  import opened DesRound

  /** The seven upper bits of each key byte: the indices of the PC-1 lookups. */
  function KeyFields(a: Word, b: Word): (x: seq<seq<bool>>)
    ensures |x| == 8
  {
    [Field(a, 25, 7), Field(a, 17, 7), Field(a, 9, 7), Field(a, 1, 7),
     Field(b, 25, 7), Field(b, 17, 7), Field(b, 9, 7), Field(b, 1, 7)]
  }

  lemma KeyFieldsBit(a: Word, b: Word, p: nat)
    requires p < 64 && p % 8 != 7
    ensures KeyFields(a, b)[p / 8][p - Base(p / 8, 8)] == (a + b)[p]
  {
  }

  /** k0 and k1: the two 28-bit halves of the permuted key, in the low bits of a word. */
  function KeyHalf(m: Masks, a: Word, b: Word): Word
    requires m.Ok() && m.width == 7 && |m.perm| == 64
  {
    Lookup8(m, 8, KeyFields(a, b))
  }

  lemma KeyPermInverse(t: Tables)
    requires t.WellFormed()
    ensures InverseOf(Inverted(t.pc1, 64, 255), t.pc1)
    ensures InverseOf(Inverted(t.pc2, 56, 255), t.pc2)
  {
    InvertedIsInverse(t.pc1, 64, 255);
    InvertedIsInverse(t.pc2, 56, 255);
  }

  lemma KeyHalfBit(m: Masks, table: seq<nat>, a: Word, b: Word, i: nat)
    requires |m.perm| == 64 && m.width == 7 && m.off == 4 && m.hi == m.lo + 28 <= 56
    requires |table| == 56 && InverseOf(m.perm, table) && (forall q | 0 <= q < 56 :: table[q] % 8 != 0)
    requires i < 32
    ensures KeyHalf(m, a, b)[i] == (i >= 4 && (a + b)[table[m.lo + i - 4] - 1])
  {
    if i >= 4 {
      var p := table[m.lo + i - 4] - 1;
      assert p % 8 != 7 by { assert (p + 1) % 8 != 0; }
      Lookup8Bit(m, table, 8, KeyFields(a, b), m.lo + i - 4, p / 8);
      KeyFieldsBit(a, b, p);
    } else {
      LookupsOutside(m, 8, KeyFields(a, b), i, 8);
    }
  }

  /** The two halves are C0 and D0. */
  lemma KeyHalves(t: Tables, a: Word, b: Word)
    requires t.WellFormed()
    ensures
      var cd := Select(a + b, t.pc1);
      var k0, k1 := KeyHalf(KeyLeft(t), a, b), KeyHalf(KeyRight(t), a, b);
      && Is28(k0) && Is28(k1) && k0[4..] == cd[..28] && k1[4..] == cd[28..]
  {
    var k0, k1 := KeyHalf(KeyLeft(t), a, b), KeyHalf(KeyRight(t), a, b);
    KeyPermInverse(t);
    forall i | 0 <= i < 32
      ensures k0[i] == (i >= 4 && (a + b)[t.pc1[i - 4] - 1])
      ensures k1[i] == (i >= 4 && (a + b)[t.pc1[28 + i - 4] - 1])
    {
      KeyHalfBit(KeyLeft(t), t.pc1, a, b, i);
      KeyHalfBit(KeyRight(t), t.pc1, a, b, i);
    }
  }

  /** The word holds 28 bits at most. */
  predicate Is28(w: Word) {
    forall i | 0 <= i < 4 :: !w[i]
  }

  /** shifts after the given round: the sum of the shifts so far. */
  function TotalShift(round: nat): (s: nat)
    requires round < 16
    ensures round < s <= 2 * round + 2
  {
    (if round == 0 then 0 else TotalShift(round - 1)) + KeyShift(round)
  }

  /** The totals end at 28, where the halves are back where they started. */
  lemma TotalShiftBound(round: nat)
    requires round < 16
    ensures TotalShift(round) <= 28
  {
    LastShift();
    TotalShiftMonotone(round, 15);
  }

  lemma LastShift()
    ensures TotalShift(15) == 28
  {
    assert TotalShift(1) == 2;
    assert TotalShift(3) == 6;
    assert TotalShift(5) == 10;
    assert TotalShift(7) == 14;
    assert TotalShift(9) == 17;
    assert TotalShift(11) == 21;
    assert TotalShift(13) == 25;
  }

  lemma {:induction false} TotalShiftMonotone(a: nat, b: nat)
    requires a <= b < 16
    ensures TotalShift(a) <= TotalShift(b)
  {
    if a < b {
      TotalShiftMonotone(a, b - 1);
    }
  }

  /** t0 = (k0 << shifts) | (k0 >> (28 - shifts)); bits above the low 28 are left over. */
  function Rotated(k: Word, s: nat): Word
    requires s <= 28
  {
    Or(Shl(k, s), Shr(k, 28 - s))
  }

  /** Position i of a 28-bit register, s places further on. */
  function Around(i: nat, s: nat): (r: nat)
    requires i < 28 && s <= 28
    ensures r < 28
  {
    if i + s < 28 then i + s else i + s - 28
  }

  lemma RotatedBit(k: Word, s: nat, i: nat)
    requires Is28(k) && 1 <= s <= 28 && i < 28
    ensures Rotated(k, s)[4 + i] == k[4 + Around(i, s)]
  {
  }

  lemma RotateLeftBit(x: seq<bool>, n: nat, i: nat)
    requires |x| == 28 && n <= 28 && i < 28
    ensures RotateLeft(x, n)[i] == x[Around(i, n)]
  {
  }

  lemma AroundTwice(i: nat, n: nat, s: nat)
    requires i < 28 && n + s <= 28
    ensures Around(Around(i, n), s) == Around(i, n + s)
  {
  }

  /** Rotating round by round adds up. */
  lemma {:induction false} ShiftedBit(c: seq<bool>, round: nat, i: nat)
    requires |c| == 28 && round < 16 && i < 28
    ensures TotalShift(round) <= 28
    ensures Shifted(c, round)[i] == c[Around(i, TotalShift(round))]
  {
    TotalShiftBound(round);
    var n := KeyShift(round);
    if round == 0 {
      RotateLeftBit(c, n, i);
    } else {
      var s := TotalShift(round - 1);
      assert TotalShift(round) == n + s;
      var c' := Shifted(c, round - 1);
      assert Shifted(c, round) == RotateLeft(c', n);
      RotateLeftBit(c', n, i);
      ShiftedBit(c, round - 1, Around(i, n));
      AroundTwice(i, n, s);
    }
  }

  /** One rotation by the total shift is the iterated rotation of the standard. */
  lemma CumulativeRotation(k: Word, round: nat)
    requires Is28(k) && round < 16
    ensures TotalShift(round) <= 28
    ensures Rotated(k, TotalShift(round))[4..] == Shifted(k[4..], round)
  {
    TotalShiftBound(round);
    forall i | 0 <= i < 28
      ensures Rotated(k, TotalShift(round))[4 + i] == Shifted(k[4..], round)[i]
    {
      RotatedBit(k, TotalShift(round), i);
      ShiftedBit(k[4..], round, i);
    }
  }

  /** Seven bits at a time of both rotated halves: the indices of the PC-2 lookups. */
  function Sevens(a: Word, b: Word): (x: seq<seq<bool>>)
    ensures |x| == 8
  {
    [Field(a, 21, 7), Field(a, 14, 7), Field(a, 7, 7), Field(a, 0, 7),
     Field(b, 21, 7), Field(b, 14, 7), Field(b, 7, 7), Field(b, 0, 7)]
  }

  lemma SevensBit(a: Word, b: Word, p: nat)
    requires p < 56
    ensures Sevens(a, b)[p / 7][p - Base(p / 7, 7)] == (a[4..] + b[4..])[p]
  {
  }

  /** Half of a subkey. */
  function Compressed(m: Masks, t0: Word, t1: Word): Word
    requires m.Ok() && m.width == 7 && |m.perm| == 56
  {
    Lookup8(m, 7, Sevens(t0, t1))
  }

  lemma CompressedBit(m: Masks, table: seq<nat>, t0: Word, t1: Word, i: nat)
    requires |m.perm| == 56 && m.width == 7 && m.off == 8 && m.hi == m.lo + 24 <= 48
    requires |table| == 48 && InverseOf(m.perm, table) && i < 32
    ensures Compressed(m, t0, t1)[i] == (i >= 8 && (t0[4..] + t1[4..])[table[m.lo + i - 8] - 1])
  {
    if i >= 8 {
      var p := table[m.lo + i - 8] - 1;
      Lookup8Bit(m, table, 7, Sevens(t0, t1), m.lo + i - 8, p / 7);
      SevensBit(t0, t1, p);
    } else {
      LookupsOutside(m, 7, Sevens(t0, t1), i, 8);
    }
  }

  /** en_keysl[round] and en_keysr[round] for the raw key words a and b. */
  function SubkeyLeft(t: Tables, a: Word, b: Word, round: nat): Word
    requires t.WellFormed() && round < 16
  {
    TotalShiftBound(round);
    Compressed(CompLeft(t), Rotated(KeyHalf(KeyLeft(t), a, b), TotalShift(round)),
                            Rotated(KeyHalf(KeyRight(t), a, b), TotalShift(round)))
  }

  function SubkeyRight(t: Tables, a: Word, b: Word, round: nat): Word
    requires t.WellFormed() && round < 16
  {
    TotalShiftBound(round);
    Compressed(CompRight(t), Rotated(KeyHalf(KeyLeft(t), a, b), TotalShift(round)),
                             Rotated(KeyHalf(KeyRight(t), a, b), TotalShift(round)))
  }

  lemma CompressedHalves(t: Tables, t0: Word, t1: Word)
    requires t.WellFormed()
    ensures
      var l, r := Compressed(CompLeft(t), t0, t1), Compressed(CompRight(t), t0, t1);
      Is24(l) && Is24(r) && l[8..] + r[8..] == Select(t0[4..] + t1[4..], t.pc2)
  {
    var l, r := Compressed(CompLeft(t), t0, t1), Compressed(CompRight(t), t0, t1);
    KeyPermInverse(t);
    forall i | 0 <= i < 32
      ensures l[i] == (i >= 8 && (t0[4..] + t1[4..])[t.pc2[i - 8] - 1])
      ensures r[i] == (i >= 8 && (t0[4..] + t1[4..])[t.pc2[24 + i - 8] - 1])
    {
      CompressedBit(CompLeft(t), t.pc2, t0, t1, i);
      CompressedBit(CompRight(t), t.pc2, t0, t1, i);
    }
  }

  /** The key-schedule theorem: in every round, including the one with shift 28, the two
      words hold the subkey of the standard and nothing else. */
  lemma SubkeyIsStandard(t: Tables, a: Word, b: Word, round: nat)
    requires t.WellFormed() && round < 16
    ensures Is24(SubkeyLeft(t, a, b, round)) && Is24(SubkeyRight(t, a, b, round))
    ensures SubkeyLeft(t, a, b, round)[8..] + SubkeyRight(t, a, b, round)[8..] == Subkey(t, a + b, round)
  {
    var k0, k1 := KeyHalf(KeyLeft(t), a, b), KeyHalf(KeyRight(t), a, b);
    KeyHalves(t, a, b);
    CumulativeRotation(k0, round);
    CumulativeRotation(k1, round);
    CompressedHalves(t, Rotated(k0, TotalShift(round)), Rotated(k1, TotalShift(round)));
  }

  /** Which key bit (counted from 0) becomes bit o of the subkey of a round. */
  function KeyBitOf(t: Tables, round: nat, o: nat): (p: nat)
    requires t.WellFormed() && round < 16 && o < 48
    ensures p < 64 && p % 8 != 7
  {
    TotalShiftBound(round);
    t.pc1[RegisterBitOf(t, round, o)] - 1
  }

  /** Which bit of C0 D0 it was on the way. */
  function RegisterBitOf(t: Tables, round: nat, o: nat): (q: nat)
    requires t.WellFormed() && round < 16 && o < 48 && TotalShift(round) <= 28
    ensures q < 56
  {
    var c := t.pc2[o] - 1;
    if c < 28 then Around(c, TotalShift(round)) else 28 + Around(c - 28, TotalShift(round))
  }

  lemma RegisterBit(t: Tables, cd: seq<bool>, round: nat, o: nat)
    requires t.WellFormed() && |cd| == 56 && round < 16 && o < 48
    ensures TotalShift(round) <= 28
    ensures (Shifted(cd[..28], round) + Shifted(cd[28..], round))[t.pc2[o] - 1] == cd[RegisterBitOf(t, round, o)]
  {
    TotalShiftBound(round);
    var c := t.pc2[o] - 1;
    if c < 28 {
      ShiftedBit(cd[..28], round, c);
    } else {
      ShiftedBit(cd[28..], round, c - 28);
    }
  }

  /** Every subkey bit is one key bit, the same one for all keys, and never a parity bit. */
  lemma SubkeyBitIsKeyBit(t: Tables, key: seq<bool>, round: nat, o: nat)
    requires t.WellFormed() && |key| == 64 && round < 16 && o < 48
    ensures Subkey(t, key, round)[o] == key[KeyBitOf(t, round, o)]
  {
    RegisterBit(t, Select(key, t.pc1), round, o);
  }

  /** Hence the low bit of every key byte is without effect. */
  lemma ParityBitsIgnored(t: Tables, key: seq<bool>, key': seq<bool>)
    requires t.WellFormed() && |key| == 64 && |key'| == 64
    requires forall p | 0 <= p < 64 && p % 8 != 7 :: key[p] == key'[p]
    ensures KeySchedule(t, key) == KeySchedule(t, key')
  {
    forall round | 0 <= round < 16
      ensures Subkey(t, key, round) == Subkey(t, key', round)
    {
      forall o | 0 <= o < 48
        ensures Subkey(t, key, round)[o] == Subkey(t, key', round)[o]
      {
        SubkeyBitIsKeyBit(t, key, round, o);
        SubkeyBitIsKeyBit(t, key', round, o);
      }
    }
  }

  // The schedule of the published tables, in numbers.

  /** How far the registers have been rotated in each round: 1, 2, 4, 6, 8, 10, 12, 14, then 15,
      17, 19, 21, 23, 25, 27, and 28. */
  function Rotation(round: nat): (n: nat)
    requires round < 16
    ensures n <= 28
  {
    if round == 0 then 1 else if round < 8 then 2 * round else if round < 15 then 2 * round - 1 else 28
  }

  lemma {:induction false} TotalShiftIs(round: nat)
    requires round < 16
    ensures TotalShift(round) == Rotation(round)
  {
    if round > 0 {
      TotalShiftIs(round - 1);
    }
  }

  lemma AroundIsModular(i: nat, s: nat)
    requires i < 28 && s <= 28
    ensures Around(i, s) == (i + s) % 28
  {
  }

  /** Where a bit of C D was before the rotations. */
  function Origin(c: nat, s: nat): (q: nat)
    requires c < 56
    ensures q < 56
  {
    if c < 28 then (c + s) % 28 else 28 + (c - 28 + s) % 28
  }

  lemma RegisterRule(round: nat, o: nat)
    requires round < 16 && o < 48 && DES.WellFormed() && TotalShift(round) <= 28
    ensures 1 <= Pc2Bit(o) <= 56 && RegisterBitOf(DES, round, o) == Origin(Pc2Bit(o) - 1, Rotation(round))
  {
    TotalShiftIs(round);
    Pc2Range(o);
    var c := Pc2Bit(o) - 1;
    assert DES.pc2[o] == Pc2Bit(o);
    AroundIsModular(if c < 28 then c else c - 28, Rotation(round));
  }

  /** Bit o of the subkey of a round is this bit of the key: PC-2, back by the rotation, PC-1. */
  lemma KeyBitRule(round: nat, o: nat)
    requires round < 16 && o < 48 && DES.WellFormed()
    ensures 1 <= Pc2Bit(o) <= 56
    ensures KeyBitOf(DES, round, o) == Pc1Place(Origin(Pc2Bit(o) - 1, Rotation(round))) - 1
  {
    TotalShiftBound(round);
    RegisterRule(round, o);
    Pc1Rule(RegisterBitOf(DES, round, o));
  }

  // A worked example: the key 13 34 57 79 9B BC DF F1.

  function ExampleByte(i: nat): nat {
    match i
    case 0 => 0x13 case 1 => 0x34 case 2 => 0x57 case 3 => 0x79
    case 4 => 0x9b case 5 => 0xbc case 6 => 0xdf case _ => 0xf1
  }

  function ExampleKey(): (k: seq<bool>)
    ensures |k| == 64
  {
    seq(64, p requires 0 <= p < 64 => ExampleBit(p))
  }

  /** Bit p of the key, the most significant bit of the first byte being bit 0. */
  predicate ExampleBit(p: nat) {
    var b, j := ExampleByte(p / 8), p % 8;
    (if j == 0 then b / 128 else if j == 1 then b / 64 else if j == 2 then b / 32 else if j == 3 then b / 16
     else if j == 4 then b / 8 else if j == 5 then b / 4 else if j == 6 then b / 2 else b) % 2 == 1
  }

  lemma ExampleSubkeyBit(round: nat, o: nat, c: nat, q: nat, p: nat)
    requires round < 16 && o < 48 && DES.WellFormed() && c < 56 && q < 56
    requires Pc2Bit(o) == c + 1 && Origin(c, Rotation(round)) == q && Pc1Place(q) == p + 1
    ensures p < 64 && Subkey(DES, ExampleKey(), round)[o] == ExampleBit(p)
  {
    SubkeyBitIsKeyBit(DES, ExampleKey(), round, o);
    KeyBitRule(round, o);
  }

  lemma NinthSubkey1()
    requires DES.WellFormed()
    ensures var k := Subkey(DES, ExampleKey(), 8); k[0] && k[1] && k[2] && !k[3] && !k[4] && !k[5]
  {
    ExampleSubkeyBit(8, 0, 13, 0, 56);
    ExampleSubkeyBit(8, 1, 16, 3, 32);
    ExampleSubkeyBit(8, 2, 10, 25, 51);
    ExampleSubkeyBit(8, 3, 23, 10, 41);
    ExampleSubkeyBit(8, 4, 0, 15, 1);
    ExampleSubkeyBit(8, 5, 4, 19, 34);
  }

  lemma NinthSubkey2()
    requires DES.WellFormed()
    ensures var k := Subkey(DES, ExampleKey(), 8); !k[6] && !k[7] && k[8] && k[9] && !k[10] && k[11]
  {
    ExampleSubkeyBit(8, 6, 2, 17, 50);
    ExampleSubkeyBit(8, 7, 27, 14, 9);
    ExampleSubkeyBit(8, 8, 14, 1, 48);
    ExampleSubkeyBit(8, 9, 5, 20, 26);
    ExampleSubkeyBit(8, 10, 20, 7, 0);
    ExampleSubkeyBit(8, 11, 9, 24, 59);
  }

  lemma NinthSubkey3()
    requires DES.WellFormed()
    ensures var k := Subkey(DES, ExampleKey(), 8); k[12] && !k[13] && k[14] && k[15] && k[16] && k[17]
  {
    ExampleSubkeyBit(8, 12, 22, 9, 49);
    ExampleSubkeyBit(8, 13, 18, 5, 16);
    ExampleSubkeyBit(8, 14, 11, 26, 43);
    ExampleSubkeyBit(8, 15, 3, 18, 42);
    ExampleSubkeyBit(8, 16, 25, 12, 25);
    ExampleSubkeyBit(8, 17, 7, 22, 10);
  }

  lemma NinthSubkey4()
    requires DES.WellFormed()
    ensures var k := Subkey(DES, ExampleKey(), 8); k[18] && !k[19] && k[20] && !k[21] && k[22] && k[23]
  {
    ExampleSubkeyBit(8, 18, 15, 2, 40);
    ExampleSubkeyBit(8, 19, 6, 21, 18);
    ExampleSubkeyBit(8, 20, 26, 13, 17);
    ExampleSubkeyBit(8, 21, 19, 6, 8);
    ExampleSubkeyBit(8, 22, 12, 27, 35);
    ExampleSubkeyBit(8, 23, 1, 16, 58);
  }

  lemma NinthSubkey5()
    requires DES.WellFormed()
    ensures var k := Subkey(DES, ExampleKey(), 8); k[24] && k[25] && k[26] && !k[27] && k[28] && k[29]
  {
    ExampleSubkeyBit(8, 24, 40, 55, 3);
    ExampleSubkeyBit(8, 25, 51, 38, 45);
    ExampleSubkeyBit(8, 26, 30, 45, 52);
    ExampleSubkeyBit(8, 27, 36, 51, 4);
    ExampleSubkeyBit(8, 28, 46, 33, 22);
    ExampleSubkeyBit(8, 29, 54, 41, 21);
  }

  lemma NinthSubkey6()
    requires DES.WellFormed()
    ensures var k := Subkey(DES, ExampleKey(), 8); !k[30] && k[31] && k[32] && k[33] && k[34] && !k[35]
  {
    ExampleSubkeyBit(8, 30, 29, 44, 60);
    ExampleSubkeyBit(8, 31, 39, 54, 11);
    ExampleSubkeyBit(8, 32, 50, 37, 53);
    ExampleSubkeyBit(8, 33, 44, 31, 38);
    ExampleSubkeyBit(8, 34, 32, 47, 36);
    ExampleSubkeyBit(8, 35, 47, 34, 14);
  }

  lemma NinthSubkey7()
    requires DES.WellFormed()
    ensures var k := Subkey(DES, ExampleKey(), 8); !k[36] && k[37] && k[38] && k[39] && k[40] && !k[41]
  {
    ExampleSubkeyBit(8, 36, 43, 30, 46);
    ExampleSubkeyBit(8, 37, 48, 35, 6);
    ExampleSubkeyBit(8, 38, 38, 53, 19);
    ExampleSubkeyBit(8, 39, 55, 42, 13);
    ExampleSubkeyBit(8, 40, 33, 48, 28);
    ExampleSubkeyBit(8, 41, 52, 39, 37);
  }

  lemma NinthSubkey8()
    requires DES.WellFormed()
    ensures var k := Subkey(DES, ExampleKey(), 8); !k[42] && !k[43] && !k[44] && !k[45] && !k[46] && k[47]
  {
    ExampleSubkeyBit(8, 42, 45, 32, 30);
    ExampleSubkeyBit(8, 43, 41, 28, 62);
    ExampleSubkeyBit(8, 44, 49, 36, 61);
    ExampleSubkeyBit(8, 45, 35, 50, 12);
    ExampleSubkeyBit(8, 46, 28, 43, 5);
    ExampleSubkeyBit(8, 47, 31, 46, 44);
  }

  /** Its ninth subkey is 111000 001101 101111 101011 111011 011110 011110 000001. */
  lemma NinthSubkey(k: seq<bool>)
    requires DES.WellFormed() && k == Subkey(DES, ExampleKey(), 8)
    ensures |k| == 48
    ensures k[0] && k[1] && k[2] && !k[3] && !k[4] && !k[5]
    ensures !k[6] && !k[7] && k[8] && k[9] && !k[10] && k[11]
    ensures k[12] && !k[13] && k[14] && k[15] && k[16] && k[17]
    ensures k[18] && !k[19] && k[20] && !k[21] && k[22] && k[23]
    ensures k[24] && k[25] && k[26] && !k[27] && k[28] && k[29]
    ensures !k[30] && k[31] && k[32] && k[33] && k[34] && !k[35]
    ensures !k[36] && k[37] && k[38] && k[39] && k[40] && !k[41]
    ensures !k[42] && !k[43] && !k[44] && !k[45] && !k[46] && k[47]
  {
    NinthSubkey1();
    NinthSubkey2();
    NinthSubkey3();
    NinthSubkey4();
    NinthSubkey5();
    NinthSubkey6();
    NinthSubkey7();
    NinthSubkey8();
  }
}
