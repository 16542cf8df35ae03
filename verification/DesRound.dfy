/** What the tables of telnetd/des.c compute, as functions of the words that index them, and
    the proofs that these fast forms are the permutations and the cipher function of
    FIPS PUB 46-3. */
module DesRound {
  import opened Bits
  import opened Fips46
  import opened DesMasks

  // The families of masks that des_init builds.

  /** init_perm, the inverse of IP (and so its printed inverse, less one). */
  function InitPerm(t: Tables): (r: seq<nat>)
    ensures |r| == 64
  {
    Inverted(t.ip, 64, 0)
  }

  /** final_perm: IP, less one. */
  function FinalPerm(t: Tables): (r: seq<nat>)
    requires t.WellFormed()
    ensures |r| == 64
  {
    Decremented(t.ip)
  }

  function Decremented(a: seq<nat>): (r: seq<nat>)
    requires forall i | 0 <= i < |a| :: 1 <= a[i]
    ensures |r| == |a|
  {
    seq(|a|, i requires 0 <= i < |a| => a[i] - 1)
  }

  function IpLeft(t: Tables): Masks { Masks(InitPerm(t), 8, 0, 32, 0) }
  function IpRight(t: Tables): Masks { Masks(InitPerm(t), 8, 32, 64, 0) }
  function FpLeft(t: Tables): Masks requires t.WellFormed() { Masks(FinalPerm(t), 8, 0, 32, 0) }
  function FpRight(t: Tables): Masks requires t.WellFormed() { Masks(FinalPerm(t), 8, 32, 64, 0) }
  function KeyLeft(t: Tables): Masks { Masks(Inverted(t.pc1, 64, 255), 7, 0, 28, 4) }
  function KeyRight(t: Tables): Masks { Masks(Inverted(t.pc1, 64, 255), 7, 28, 56, 4) }
  function CompLeft(t: Tables): Masks { Masks(Inverted(t.pc2, 56, 255), 7, 0, 24, 8) }
  function CompRight(t: Tables): Masks { Masks(Inverted(t.pc2, 56, 255), 7, 24, 48, 8) }
  function PMasks(t: Tables): Masks { Masks(Inverted(t.p, 32, 0), 8, 0, 32, 0) }

  lemma InvertibleIsInjective(a: seq<nat>, b: seq<nat>, n: nat, i: nat, j: nat)
    requires Inverts(a, b, n) && i < j < n
    ensures a[i] != a[j]
  {
    assert UndoneAt(a, b, i) && UndoneAt(a, b, j);
  }

  lemma InvertibleIsOnto(a: seq<nat>, b: seq<nat>, n: nat, v: nat)
    requires Inverts(a, b, n) && Inverts(b, a, n) && 1 <= v <= n
    ensures v in a
  {
    assert UndoneAt(b, a, v - 1);
  }

  lemma InitPermInverse(t: Tables)
    requires t.WellFormed()
    ensures InverseOf(InitPerm(t), t.ip)
  {
    var a, b := t.ip, t.fp;
    forall i, j | 0 <= i < j < 64
      ensures Differ(a, i, j)
    {
      InvertibleIsInjective(a, b, 64, i, j);
    }
    forall v | 1 <= v <= 64
      ensures v in a
    {
      InvertibleIsOnto(a, b, 64, v);
    }
    InvertedIsInverse(a, 64, 0);
  }

  lemma DecrementedInverse(a: seq<nat>, b: seq<nat>, n: nat)
    requires Inverts(a, b, n) && Inverts(b, a, n)
    ensures InverseOf(Decremented(a), b)
  {
    var perm := Decremented(a);
    forall x, q | 0 <= x < n && 0 <= q < n
      ensures perm[x] == q <==> x == b[q] - 1
    {
      assert UndoneAt(a, b, x) && UndoneAt(b, a, q);
    }
  }

  lemma FinalPermInverse(t: Tables)
    requires t.WellFormed()
    ensures InverseOf(FinalPerm(t), t.fp)
  {
    DecrementedInverse(t.ip, t.fp, 64);
  }

  lemma PInverse(t: Tables)
    requires t.WellFormed()
    ensures InverseOf(Inverted(t.p, 32, 0), t.p)
  {
    InvertedIsInverse(t.p, 32, 0);
  }

  // The two permutations of a block.

  /** The eight bytes of a block given as two words: the indices of the eight lookups. */
  function Bytes(l: Word, r: Word): (x: seq<seq<bool>>)
    ensures |x| == 8
  {
    [Field(l, 24, 8), Field(l, 16, 8), Field(l, 8, 8), Field(l, 0, 8),
     Field(r, 24, 8), Field(r, 16, 8), Field(r, 8, 8), Field(r, 0, 8)]
  }

  lemma BytesBit(l: Word, r: Word, p: nat)
    requires p < 64
    ensures Bytes(l, r)[p / 8][p - Base(p / 8, 8)] == (l + r)[p]
  {
  }

  /** One half of a mask table: its output bit o is the bit selected for position lo + o. */
  lemma HalfPermutation(m: Masks, table: seq<nat>, l: Word, r: Word, o: nat)
    requires |m.perm| == 64 && m.width == 8 && m.off == 0 && m.hi == m.lo + 32 <= 64
    requires |table| == 64 && InverseOf(m.perm, table) && o < 32
    ensures Lookup8(m, 8, Bytes(l, r))[o] == (l + r)[table[m.lo + o] - 1]
  {
    var p := table[m.lo + o] - 1;
    Lookup8Bit(m, table, 8, Bytes(l, r), m.lo + o, p / 8);
    BytesBit(l, r, p);
  }

  /** Looking up the bytes of a block in the two halves of a mask table selects its bits. */
  lemma BlockPermutation(left: Masks, right: Masks, table: seq<nat>, l: Word, r: Word)
    requires left.perm == right.perm && |left.perm| == 64 && left.width == right.width == 8
    requires left.lo == 0 && left.hi == 32 == right.lo && right.hi == 64 && left.off == right.off == 0
    requires |table| == 64 && InverseOf(left.perm, table)
    ensures Lookup8(left, 8, Bytes(l, r)) + Lookup8(right, 8, Bytes(l, r)) == Select(l + r, table)
  {
    var a, b := Lookup8(left, 8, Bytes(l, r)), Lookup8(right, 8, Bytes(l, r));
    forall o | 0 <= o < 32
      ensures a[o] == (l + r)[table[o] - 1] && b[o] == (l + r)[table[32 + o] - 1]
    {
      HalfPermutation(left, table, l, r, o);
      HalfPermutation(right, table, l, r, o);
    }
  }

  // The round.

  /** r48l: bits 1..24 of E(R), by masks and shifts. */
  function R48l(r: Word): Word {
    Or(Or(Or(Or(
      Shl(And(r, Mask(31, 32)), 23),    // 0x00000001
      Shr(And(r, Mask(0, 5)), 9)),      // 0xf8000000
      Shr(And(r, Mask(3, 9)), 11)),     // 0x1f800000
      Shr(And(r, Mask(7, 13)), 13)),    // 0x01f80000
      Shr(And(r, Mask(11, 17)), 15))    // 0x001f8000
  }

  /** r48r: bits 25..48 of E(R). */
  function R48r(r: Word): Word {
    Or(Or(Or(Or(
      Shl(And(r, Mask(15, 21)), 7),     // 0x0001f800
      Shl(And(r, Mask(19, 25)), 5)),    // 0x00001f80
      Shl(And(r, Mask(23, 29)), 3)),    // 0x000001f8
      Shl(And(r, Mask(27, 32)), 1)),    // 0x0000001f
      Shr(And(r, Mask(0, 1)), 31))      // 0x80000000
  }

  /** A field of r moved n bits to the right. */
  lemma MovedRight(r: Word, lo: nat, hi: nat, n: nat, i: nat)
    requires lo <= hi <= 32 && i < 32
    ensures Shr(And(r, Mask(lo, hi)), n)[i] == (lo + n <= i < hi + n && r[i - n])
  {
  }

  lemma MovedLeft(r: Word, lo: nat, hi: nat, n: nat, i: nat)
    requires n <= lo <= hi <= 32 && i < 32
    ensures Shl(And(r, Mask(lo, hi)), n)[i] == (lo - n <= i < hi - n && r[i + n])
  {
  }

  lemma EFormula(i: nat)
    requires i < 48
    ensures EBit(i) == if i == 0 then 32 else if i == 47 then 1 else i - 2 * (i / 6)
  {
  }

  lemma ExpandBit(r: Word, i: nat)
    requires i < 48
    ensures Expand(r)[i] == r[if i == 0 then 31 else if i == 47 then 0 else i - 1 - 2 * (i / 6)]
  {
    EFormula(i);
  }

  /** The masks and shifts are the E table. */
  lemma LeftExpansion(r: Word, e: seq<bool>, i: nat)
    requires e == Expand(r) && i < 32
    ensures R48l(r)[i] == (i >= 8 && e[i - 8])
  {
    MovedLeft(r, 31, 32, 23, i);
    MovedRight(r, 0, 5, 9, i);
    MovedRight(r, 3, 9, 11, i);
    MovedRight(r, 7, 13, 13, i);
    MovedRight(r, 11, 17, 15, i);
    if i >= 8 {
      ExpandBit(r, i - 8);
    }
  }

  lemma RightExpansion(r: Word, e: seq<bool>, i: nat)
    requires e == Expand(r) && i < 32
    ensures R48r(r)[i] == (i >= 8 && e[i + 16])
  {
    MovedLeft(r, 15, 21, 7, i);
    MovedLeft(r, 19, 25, 5, i);
    MovedLeft(r, 23, 29, 3, i);
    MovedLeft(r, 27, 32, 1, i);
    MovedRight(r, 0, 1, 31, i);
    if i >= 8 {
      ExpandBit(r, i + 16);
    }
  }

  /** The word holds 24 bits at most. */
  predicate Is24(w: Word) {
    forall i | 0 <= i < 8 :: !w[i]
  }

  /** Salting and key mixing of one half: r48 ^= f ^ k, where f = (r48l ^ r48r) & saltbits. */
  function Mixed(r48: Word, r48l: Word, r48r: Word, salt: Word, k: Word): Word {
    Xor(r48, Xor(And(Xor(r48l, r48r), salt), k))
  }

  lemma MixedBit(r48l: Word, r48r: Word, salt: Word, k: Word, i: nat)
    requires i < 32
    ensures Mixed(r48l, r48l, r48r, salt, k)[i] == ((if salt[i] then r48r[i] else r48l[i]) != k[i])
    ensures Mixed(r48r, r48l, r48r, salt, k)[i] == ((if salt[i] then r48l[i] else r48r[i]) != k[i])
  {
  }

  lemma SaltedBit(e: seq<bool>, salt: Word, kl: Word, kr: Word, i: nat)
    requires |e| == 48 && 8 <= i < 32
    ensures
      var x := XorBits(Salted(e, salt[8..]), kl[8..] + kr[8..]);
      && x[i - 8] == ((if salt[i] then e[i + 16] else e[i - 8]) != kl[i])
      && x[i + 16] == ((if salt[i] then e[i - 8] else e[i + 16]) != kr[i])
  {
  }

  /** The mixed halves are E(R), salted, plus the subkey. */
  lemma MixedBits(r: Word, salt: Word, kl: Word, kr: Word, i: nat)
    requires Is24(salt) && Is24(kl) && Is24(kr) && i < 32
    ensures
      var x := XorBits(Salted(Expand(r), salt[8..]), kl[8..] + kr[8..]);
      && Mixed(R48l(r), R48l(r), R48r(r), salt, kl)[i] == (i >= 8 && x[i - 8])
      && Mixed(R48r(r), R48l(r), R48r(r), salt, kr)[i] == (i >= 8 && x[i + 16])
  {
    LeftExpansion(r, Expand(r), i);
    RightExpansion(r, Expand(r), i);
    MixedBit(R48l(r), R48r(r), salt, kl, i);
    MixedBit(R48l(r), R48r(r), salt, kr, i);
    if i >= 8 {
      SaltedBit(Expand(r), salt, kl, kr, i);
    }
  }

  /** The reordering of S-box inputs: b = (j & 0x20) | ((j & 1) << 4) | ((j >> 1) & 0xf). */
  function Reorder(j: nat): (b: nat)
    requires j < 64
    ensures b < 64
  {
    (j / 32) * 32 + (j % 2) * 16 + (j / 2) % 16
  }

  function Bit01(b: bool): nat { if b then 1 else 0 }

  lemma Value4(c: seq<bool>)
    requires |c| == 4
    ensures Value(c) == 8 * Bit01(c[0]) + 4 * Bit01(c[1]) + 2 * Bit01(c[2]) + Bit01(c[3])
  {
    assert c[..3][..2] == c[..2];
    assert c[..2][..1] == c[..1];
    assert c[..1][..0] == [];
    assert Value(c[..1]) == Bit01(c[0]);
    assert Value(c[..2]) == 2 * Value(c[..1]) + Bit01(c[1]);
    assert Value(c[..3]) == 2 * Value(c[..2]) + Bit01(c[2]);
  }

  lemma Value6(c: seq<bool>)
    requires |c| == 6
    ensures Value(c) == 32 * Bit01(c[0]) + 2 * Value(c[1..5]) + Bit01(c[5])
  {
    assert c[..5][..4] == c[..4];
    Value4(c[1..5]);
    Value4(c[..4]);
  }

  /** It turns the value of six bits into the row and column of the standard. */
  lemma ReorderIsRowColumn(c: seq<bool>)
    requires |c| == 6
    ensures Value(c) < 64 && Reorder(Value(c)) == SIndex(c)
  {
    Value6(c);
    SixBound(c);
    Value4(c[1..5]);
    Corners(c[0], c[5]);
    ReorderValue(Bit01(c[0]), Value(c[1..5]), Bit01(c[5]));
  }

  lemma Corners(a: bool, b: bool)
    ensures Value([a, b]) == 2 * Bit01(a) + Bit01(b)
  {
    assert [a, b][..1] == [a];
    assert [a][..0] == [];
    assert Value([a]) == Bit01(a);
    assert Value([a, b]) == 2 * Value([a, b][..1]) + Bit01(b);
  }

  lemma ReorderValue(first: nat, middle: nat, last: nat)
    requires first < 2 && middle < 16 && last < 2
    ensures Reorder(32 * first + 2 * middle + last) == 16 * (2 * first + last) + middle
  {
  }

  /** Entry v of m_sbox[b]: two neighbouring S-boxes packed into one byte. */
  function MEntry(s: seq<seq<nat>>, b: nat, v: nat): (r: nat)
    requires BoxesOk(s) && b < 4 && v < 4096
    ensures r < 256
  {
    16 * s[2 * b][Reorder(v / 64)] + s[2 * b + 1][Reorder(v % 64)]
  }

  lemma Pow2Six()
    ensures Pow2(6) == 64
  {
    assert Pow2(3) == 8;
  }

  lemma SixBound(c: seq<bool>)
    requires |c| == 6
    ensures Value(c) < 64
  {
    Value6(c);
    Value4(c[1..5]);
  }

  lemma Quotient(n: nat, a: nat, b: nat)
    requires n == a * 64 + b && a < 64 && b < 64
    ensures n < 4096 && n / 64 == a && n % 64 == b
  {
  }

  lemma SplitIndex(x: seq<bool>)
    requires |x| == 12
    ensures Value(x) < 4096 && Value(x) / 64 == Value(x[..6]) && Value(x) % 64 == Value(x[6..])
  {
    assert x == x[..6] + x[6..];
    ValueConcat(x[..6], x[6..]);
    Pow2Six();
    SixBound(x[..6]);
    SixBound(x[6..]);
    Quotient(Value(x), Value(x[..6]), Value(x[6..]));
  }

  /** The byte that m_sbox[b] yields for a twelve-bit index. */
  function MByte(s: seq<seq<nat>>, b: nat, x: seq<bool>): (r: nat)
    requires BoxesOk(s) && b < 4 && |x| == 12
    ensures r < 256
  {
    SplitIndex(x);
    MEntry(s, b, Value(x))
  }

  /** The packed byte is the output of two neighbouring selection functions. */
  lemma MEntryBits(s: seq<seq<nat>>, b: nat, x: seq<bool>)
    requires BoxesOk(s) && b < 4 && |x| == 12
    ensures BitsOf(8, MByte(s, b, x)) == BitsOf(4, s[2 * b][SIndex(x[..6])]) + BitsOf(4, s[2 * b + 1][SIndex(x[6..])])
  {
    SplitIndex(x);
    ReorderIsRowColumn(x[..6]);
    ReorderIsRowColumn(x[6..]);
    Pack(s[2 * b][SIndex(x[..6])], s[2 * b + 1][SIndex(x[6..])]);
  }

  lemma Pack(hi: nat, lo: nat)
    requires lo < 16
    ensures BitsOf(8, 16 * hi + lo) == BitsOf(4, hi) + BitsOf(4, lo)
  {
    PackFields(4, 4, hi, lo, 16, 16 * hi + lo) by {
      assert Pow2(4) == 16;
    }
  }

  lemma PackFields(n: nat, m: nat, hi: nat, lo: nat, p: nat, v: nat)
    requires p == Pow2(m) && lo < p && v == p * hi + lo
    ensures BitsOf(n + m, v) == BitsOf(n, hi) + BitsOf(m, lo)
  {
    assert p * hi == hi * p;
    BitsConcat(n, hi, m, lo);
  }

  /** Four S-box bytes, each spread over the word by its P-box masks. */
  function Spread(m: Masks, b0: seq<bool>, b1: seq<bool>, b2: seq<bool>, b3: seq<bool>): Word
    requires m.Ok() && |m.perm| == 32 && |b0| == |b1| == |b2| == |b3| == 8
  {
    Or(Or(Or(Entry(m, 0, b0), Entry(m, 8, b1)), Entry(m, 16, b2)), Entry(m, 24, b3))
  }

  /** The masks perform P on the four bytes put side by side. */
  lemma SpreadBit(m: Masks, p: seq<nat>, b0: seq<bool>, b1: seq<bool>, b2: seq<bool>, b3: seq<bool>, o: nat)
    requires |m.perm| == 32 && |b0| == |b1| == |b2| == |b3| == 8
    requires m.lo == 0 && m.hi == 32 && m.off == 0 && |p| == 32 && InverseOf(m.perm, p) && o < 32
    ensures Spread(m, b0, b1, b2, b3)[o] == (b0 + b1 + b2 + b3)[p[o] - 1]
  {
    EntryBit(m, p, 0, b0, o);
    EntryBit(m, p, 8, b1, o);
    EntryBit(m, p, 16, b2, o);
    EntryBit(m, p, 24, b3, o);
  }

  /** psbox applied to four bytes. */
  function PLookup(t: Tables, m0: nat, m1: nat, m2: nat, m3: nat): Word
    requires t.WellFormed()
  {
    Spread(PMasks(t), BitsOf(8, m0), BitsOf(8, m1), BitsOf(8, m2), BitsOf(8, m3))
  }

  /** f of one round, as the table lookups compute it. */
  function F(t: Tables, r: Word, salt: Word, kl: Word, kr: Word): Word
    requires t.WellFormed() && Is24(salt) && Is24(kl) && Is24(kr)
  {
    var a := Mixed(R48l(r), R48l(r), R48r(r), salt, kl);
    var b := Mixed(R48r(r), R48l(r), R48r(r), salt, kr);
    PLookup(t, MByte(t.s, 0, Field(a, 12, 12)), MByte(t.s, 1, Field(a, 0, 12)),
               MByte(t.s, 2, Field(b, 12, 12)), MByte(t.s, 3, Field(b, 0, 12)))
  }

  /** One packed byte carries output bits 8b .. 8b + 7 of the selection functions. */
  lemma ByteIsTwoBoxes(s: seq<seq<nat>>, x: seq<bool>, b: nat, j: nat)
    requires BoxesOk(s) && |x| == 48 && b < 4 && j < 8
    ensures BitsOf(8, MByte(s, b, x[12 * b..12 * b + 12]))[j] == SBoxes(s, x)[8 * b + j]
  {
    var y := x[12 * b..12 * b + 12];
    MByteBit(s, b, y, j);
    Halves(x, b, y);
    if j < 4 {
      BoxBit(s, x, 2 * b, j, y[..6]);
    } else {
      BoxBit(s, x, 2 * b + 1, j - 4, y[6..]);
    }
  }

  lemma Halves(x: seq<bool>, b: nat, y: seq<bool>)
    requires |x| == 48 && b < 4 && y == x[12 * b..12 * b + 12]
    ensures y[..6] == x[6 * (2 * b)..6 * (2 * b) + 6] && y[6..] == x[6 * (2 * b + 1)..6 * (2 * b + 1) + 6]
  {
  }

  lemma BoxBit(s: seq<seq<nat>>, x: seq<bool>, box: nat, j: nat, z: seq<bool>)
    requires BoxesOk(s) && |x| == 48 && box < 8 && j < 4 && z == x[6 * box..6 * box + 6]
    ensures SBoxes(s, x)[4 * box + j] == BitsOf(4, s[box][SIndex(z)])[j]
  {
    SubstitutedBit(s, x, 8, box, j);
  }

  lemma MByteBit(s: seq<seq<nat>>, b: nat, y: seq<bool>, j: nat)
    requires BoxesOk(s) && b < 4 && |y| == 12 && j < 8
    ensures
      BitsOf(8, MByte(s, b, y))[j] ==
      if j < 4 then BitsOf(4, s[2 * b][SIndex(y[..6])])[j] else BitsOf(4, s[2 * b + 1][SIndex(y[6..])])[j - 4]
  {
    MEntryBits(s, b, y);
  }

  /** The round theorem: the masks, shifts, packed S-boxes and P-box masks of do_des compute
      the cipher function of the standard, salted bit by bit. */
  lemma RoundIsCipher(t: Tables, r: Word, salt: Word, kl: Word, kr: Word)
    requires t.WellFormed() && Is24(salt) && Is24(kl) && Is24(kr)
    ensures F(t, r, salt, kl, kr) == Cipher(t, r, salt[8..], kl[8..] + kr[8..])
  {
    var x := XorBits(Salted(Expand(r), salt[8..]), kl[8..] + kr[8..]);
    var a := Mixed(R48l(r), R48l(r), R48r(r), salt, kl);
    var b := Mixed(R48r(r), R48l(r), R48r(r), salt, kr);
    assert Field(a, 12, 12) == x[0..12] && Field(a, 0, 12) == x[12..24]
           && Field(b, 12, 12) == x[24..36] && Field(b, 0, 12) == x[36..48] by {
      forall i | 8 <= i < 32
        ensures a[i] == x[i - 8] && b[i] == x[i + 16]
      {
        MixedBits(r, salt, kl, kr, i);
      }
    }
    PLookupIsCipher(t, x);
  }

  lemma PLookupIsCipher(t: Tables, x: seq<bool>)
    requires t.WellFormed() && |x| == 48
    ensures PLookup(t, MByte(t.s, 0, x[0..12]), MByte(t.s, 1, x[12..24]), MByte(t.s, 2, x[24..36]), MByte(t.s, 3, x[36..48]))
            == Select(SBoxes(t.s, x), t.p)
  {
    var m0, m1 := MByte(t.s, 0, x[0..12]), MByte(t.s, 1, x[12..24]);
    var m2, m3 := MByte(t.s, 2, x[24..36]), MByte(t.s, 3, x[36..48]);
    var f, w := PLookup(t, m0, m1, m2, m3), SBoxes(t.s, x);
    PInverse(t);
    forall o | 0 <= o < 32
      ensures f[o] == w[t.p[o] - 1]
    {
      SpreadBit(PMasks(t), t.p, BitsOf(8, m0), BitsOf(8, m1), BitsOf(8, m2), BitsOf(8, m3), o);
      FourBytes(t.s, x, t.p[o] - 1);
    }
  }

  lemma FourBytes(s: seq<seq<nat>>, x: seq<bool>, q: nat)
    requires BoxesOk(s) && |x| == 48 && q < 32
    ensures (BitsOf(8, MByte(s, 0, x[0..12])) + BitsOf(8, MByte(s, 1, x[12..24]))
             + BitsOf(8, MByte(s, 2, x[24..36])) + BitsOf(8, MByte(s, 3, x[36..48])))[q] == SBoxes(s, x)[q]
  {
    ByteIsTwoBoxes(s, x, q / 8, q % 8);
    PickByte(BitsOf(8, MByte(s, 0, x[0..12])), BitsOf(8, MByte(s, 1, x[12..24])),
             BitsOf(8, MByte(s, 2, x[24..36])), BitsOf(8, MByte(s, 3, x[36..48])), q);
  }

  lemma PickByte(b0: seq<bool>, b1: seq<bool>, b2: seq<bool>, b3: seq<bool>, q: nat)
    requires |b0| == |b1| == |b2| == |b3| == 8 && q < 32
    ensures (b0 + b1 + b2 + b3)[q] == [b0, b1, b2, b3][q / 8][q % 8]
  {
  }
}
