/** The data encryption standard, as FIPS PUB 46-3 writes it down: blocks, keys and
    subkeys are bit sequences and every permutation is a selection table whose entry i
    names the input bit (counted from 1) that becomes output bit i.

    The algorithm is stated for any tables that fit together (WellFormed); the tables of
    the standard are given at the end and shown to be such. */
module Fips46 {
  import opened Bits

  datatype Tables = Tables(
    ip: seq<nat>,        // initial permutation
    fp: seq<nat>,        // its inverse, as printed in the standard
    pc1: seq<nat>,       // permuted choice 1
    pc2: seq<nat>,       // permuted choice 2
    p: seq<nat>,         // permutation P of the cipher function
    s: seq<seq<nat>>     // the eight selection functions, row by row
  )
  {
    ghost predicate WellFormed() {
      && Inverts(ip, fp, 64) && Inverts(fp, ip, 64)
      && |pc1| == 56 && Injective(pc1)
      && (forall i | 0 <= i < 56 :: 1 <= pc1[i] <= 64 && pc1[i] % 8 != 0)
      && |pc2| == 48 && Injective(pc2)
      && (forall i | 0 <= i < 48 :: 1 <= pc2[i] <= 56)
      && |p| == 32 && Injective(p)
      && (forall i | 0 <= i < 32 :: 1 <= p[i] <= 32)
      && (forall v | 1 <= v <= 32 :: v in p)
      && BoxesOk(s)
    }
  }

  /** b undoes a. */
  ghost predicate Inverts(a: seq<nat>, b: seq<nat>, n: nat) {
    && |a| == n && |b| == n
    && (forall i | 0 <= i < n :: 1 <= a[i] <= n)
    && (forall i | 0 <= i < n :: UndoneAt(a, b, i))
  }

  ghost predicate UndoneAt(a: seq<nat>, b: seq<nat>, i: nat)
    requires i < |a| && 1 <= a[i] <= |b|
  {
    b[a[i] - 1] == i + 1
  }

  /** Eight selection functions of 64 four-bit entries each. */
  ghost predicate BoxesOk(s: seq<seq<nat>>) {
    && |s| == 8
    && (forall b | 0 <= b < 8 :: |s[b]| == 64)
    && (forall b, i | 0 <= b < 8 && 0 <= i < 64 :: s[b][i] < 16)
  }

  ghost predicate Injective(a: seq<nat>) {
    forall i, j | 0 <= i < j < |a| :: Differ(a, i, j)
  }

  ghost predicate Differ(a: seq<nat>, i: nat, j: nat)
    requires i < |a| && j < |a|
  {
    a[i] != a[j]
  }

  /** Output bit i is input bit table[i]. */
  function Select(x: seq<bool>, table: seq<nat>): (r: seq<bool>)
    requires forall i | 0 <= i < |table| :: 1 <= table[i] <= |x|
    ensures |r| == |table|
  {
    seq(|table|, i requires 0 <= i < |table| => x[table[i] - 1])
  }

  function XorBits(a: seq<bool>, b: seq<bool>): (r: seq<bool>)
    requires |a| == |b|
    ensures |r| == |a|
  {
    seq(|a|, i requires 0 <= i < |a| => a[i] != b[i])
  }

  /** The E bit-selection table. */
  function EBit(i: nat): nat
    requires i < 48
  {
    (match i / 6
     case 0 => [32, 1, 2, 3, 4, 5]
     case 1 => [4, 5, 6, 7, 8, 9]
     case 2 => [8, 9, 10, 11, 12, 13]
     case 3 => [12, 13, 14, 15, 16, 17]
     case 4 => [16, 17, 18, 19, 20, 21]
     case 5 => [20, 21, 22, 23, 24, 25]
     case 6 => [24, 25, 26, 27, 28, 29]
     case _ => [28, 29, 30, 31, 32, 1]
    )[i % 6]
  }

  /** E: a 32-bit block becomes 48 bits. */
  function Expand(r: Word): (e: seq<bool>)
    ensures |e| == 48
  {
    seq(48, i requires 0 <= i < 48 => assert 1 <= EBit(i) <= 32 by { ERange(i); } r[EBit(i) - 1])
  }

  lemma ERange(i: nat)
    requires i < 48
    ensures 1 <= EBit(i) <= 32
  {
  }

  /** The salt of crypt(3): where bit i of the salt is set, bits i and i + 24 of the
      expanded block trade places. */
  function Salted(e: seq<bool>, salt: seq<bool>): (r: seq<bool>)
    requires |e| == 48 && |salt| == 24
    ensures |r| == 48
  {
    seq(48, i requires 0 <= i < 48 => if salt[i % 24] then e[(i + 24) % 48] else e[i])
  }

  /** Row and column of a selection function for six input bits. */
  function SIndex(b: seq<bool>): (n: nat)
    requires |b| == 6
    ensures n < 64
  {
    var row := Value([b[0], b[5]]);
    var column := Value(b[1..5]);
    ValueRoundTrip([b[0], b[5]]);
    ValueRoundTrip(b[1..5]);
    assert Pow2(2) == 4 && Pow2(4) == 16;
    16 * row + column
  }

  /** The first n selection functions side by side: S1(B1) S2(B2) ... */
  function Substituted(s: seq<seq<nat>>, b: seq<bool>, n: nat): (r: seq<bool>)
    requires |b| == 48 && BoxesOk(s) && n <= 8
    ensures |r| == 4 * n
  {
    if n == 0 then [] else
      Substituted(s, b, n - 1) + BitsOf(4, s[n - 1][SIndex(b[6 * (n - 1)..6 * n])])
  }

  /** All eight: 48 bits become 32. */
  function SBoxes(s: seq<seq<nat>>, b: seq<bool>): Word
    requires |b| == 48 && BoxesOk(s)
  {
    Substituted(s, b, 8)
  }

  lemma {:induction false} SubstitutedBit(s: seq<seq<nat>>, b: seq<bool>, n: nat, box: nat, j: nat)
    requires |b| == 48 && BoxesOk(s) && box < n <= 8 && j < 4
    ensures Substituted(s, b, n)[4 * box + j] == BitsOf(4, s[box][SIndex(b[6 * box..6 * box + 6])])[j]
  {
    if box < n - 1 {
      SubstitutedBit(s, b, n - 1, box, j);
    }
  }

  /** The cipher function f(R, K), with the salt of crypt(3); without salt it is the
      function of the standard (see UnsaltedCipher). */
  function Cipher(t: Tables, r: Word, salt: seq<bool>, k: seq<bool>): Word
    requires t.WellFormed() && |salt| == 24 && |k| == 48
  {
    Select(SBoxes(t.s, XorBits(Salted(Expand(r), salt), k)), t.p)
  }

  /** Without salt this is the cipher function of the standard. */
  lemma UnsaltedCipher(t: Tables, r: Word, salt: seq<bool>, k: seq<bool>)
    requires t.WellFormed() && |salt| == 24 && |k| == 48 && forall i | 0 <= i < 24 :: !salt[i]
    ensures Cipher(t, r, salt, k) == Select(SBoxes(t.s, XorBits(Expand(r), k)), t.p)
  {
    assert Salted(Expand(r), salt) == Expand(r);
  }

  /** What the rounds need to know of a cipher: its function of R and a subkey, and the two
      permutations around the rounds. */
  datatype Network = Network(f: (Word, seq<bool>) -> Word, ip: seq<nat>, fp: seq<nat>) {
    ghost predicate WellFormed() {
      Inverts(ip, fp, 64) && Inverts(fp, ip, 64)
    }
  }

  /** The network of the standard, salted as in crypt(3). */
  function Des(t: Tables, salt: seq<bool>): (n: Network)
    requires t.WellFormed() && |salt| == 24
    ensures n.WellFormed()
  {
    var f: (Word, seq<bool>) -> Word := (r: Word, k: seq<bool>) => KeyedCipher(t, salt, r, k);
    Network(f, t.ip, t.fp)
  }

  /** The cipher function on subkeys; other key lengths do not occur. */
  function KeyedCipher(t: Tables, salt: seq<bool>, r: Word, k: seq<bool>): Word
    requires t.WellFormed() && |salt| == 24
  {
    if |k| == 48 then Cipher(t, r, salt, k) else Zero()
  }

  /** L and R after the first n rounds. */
  function Rounds(c: Network, l: Word, r: Word, ks: seq<seq<bool>>, n: nat): (Word, Word)
    requires n <= |ks|
  {
    if n == 0 then (l, r) else
      var (l', r') := Rounds(c, l, r, ks, n - 1);
      (r', Xor(l', c.f(r', ks[n - 1])))
  }

  predicate Schedule(ks: seq<seq<bool>>) {
    |ks| == 16 && forall i | 0 <= i < 16 :: |ks[i]| == 48
  }

  /** Both halves after sixteen rounds, exchanged: the preoutput R16 L16. */
  function Pass(c: Network, x: seq<bool>, ks: seq<seq<bool>>): (y: seq<bool>)
    requires |x| == 64 && Schedule(ks)
    ensures |y| == 64
  {
    var (l, r) := Rounds(c, x[..32], x[32..], ks, 16);
    r + l
  }

  /** Enciphering one 64-bit block: IP, sixteen rounds, and the inverse of IP. */
  function Encipher(c: Network, block: seq<bool>, ks: seq<seq<bool>>): (r: seq<bool>)
    requires c.WellFormed() && |block| == 64 && Schedule(ks)
    ensures |r| == 64
  {
    Select(Pass(c, Select(block, c.ip), ks), c.fp)
  }

  /** crypt(3) enciphers its block again and again. */
  function EncipherTimes(c: Network, block: seq<bool>, ks: seq<seq<bool>>, n: nat): (r: seq<bool>)
    requires c.WellFormed() && |block| == 64 && Schedule(ks)
    ensures |r| == 64
  {
    if n == 0 then block else Encipher(c, EncipherTimes(c, block, ks, n - 1), ks)
  }

  /** The left shifts of the key schedule, round by round. */
  function KeyShift(round: nat): (n: nat)
    requires round < 16
    ensures 1 <= n <= 2
  {
    if round == 0 || round == 1 || round == 8 || round == 15 then 1 else 2
  }

  function RotateLeft(x: seq<bool>, n: nat): (r: seq<bool>)
    requires n <= |x|
    ensures |r| == |x|
  {
    x[n..] + x[..n]
  }

  /** The register C (or D) after the shift of the given round: the previous one, rotated. */
  function Shifted(c0: seq<bool>, round: nat): (c: seq<bool>)
    requires |c0| == 28 && round < 16
    ensures |c| == 28
  {
    RotateLeft(if round == 0 then c0 else Shifted(c0, round - 1), KeyShift(round))
  }

  /** Subkey of one round: PC-1, the shifts so far, PC-2. */
  function Subkey(t: Tables, key: seq<bool>, round: nat): (k: seq<bool>)
    requires t.WellFormed() && |key| == 64 && round < 16
    ensures |k| == 48
  {
    var cd := Select(key, t.pc1);
    Select(Shifted(cd[..28], round) + Shifted(cd[28..], round), t.pc2)
  }

  function KeySchedule(t: Tables, key: seq<bool>): (ks: seq<seq<bool>>)
    requires t.WellFormed() && |key| == 64
    ensures Schedule(ks)
  {
    seq(16, i requires 0 <= i < 16 => Subkey(t, key, i))
  }

  // The tables of the standard.

  /** Initial permutation. */
  function IpBit(i: nat): nat
    requires i < 64
  {
    (match i / 4
     case 0 => [58, 50, 42, 34]
     case 1 => [26, 18, 10, 2]
     case 2 => [60, 52, 44, 36]
     case 3 => [28, 20, 12, 4]
     case 4 => [62, 54, 46, 38]
     case 5 => [30, 22, 14, 6]
     case 6 => [64, 56, 48, 40]
     case 7 => [32, 24, 16, 8]
     case 8 => [57, 49, 41, 33]
     case 9 => [25, 17, 9, 1]
     case 10 => [59, 51, 43, 35]
     case 11 => [27, 19, 11, 3]
     case 12 => [61, 53, 45, 37]
     case 13 => [29, 21, 13, 5]
     case 14 => [63, 55, 47, 39]
     case _ => [31, 23, 15, 7]
    )[i % 4]
  }

  /** Inverse initial permutation. */
  function FpBit(i: nat): nat
    requires i < 64
  {
    (match i / 4
     case 0 => [40, 8, 48, 16]
     case 1 => [56, 24, 64, 32]
     case 2 => [39, 7, 47, 15]
     case 3 => [55, 23, 63, 31]
     case 4 => [38, 6, 46, 14]
     case 5 => [54, 22, 62, 30]
     case 6 => [37, 5, 45, 13]
     case 7 => [53, 21, 61, 29]
     case 8 => [36, 4, 44, 12]
     case 9 => [52, 20, 60, 28]
     case 10 => [35, 3, 43, 11]
     case 11 => [51, 19, 59, 27]
     case 12 => [34, 2, 42, 10]
     case 13 => [50, 18, 58, 26]
     case 14 => [33, 1, 41, 9]
     case _ => [49, 17, 57, 25]
    )[i % 4]
  }

  /** Permuted choice 1. */
  function Pc1Bit(i: nat): nat
    requires i < 56
  {
    (match i / 4
     case 0 => [57, 49, 41, 33]
     case 1 => [25, 17, 9, 1]
     case 2 => [58, 50, 42, 34]
     case 3 => [26, 18, 10, 2]
     case 4 => [59, 51, 43, 35]
     case 5 => [27, 19, 11, 3]
     case 6 => [60, 52, 44, 36]
     case 7 => [63, 55, 47, 39]
     case 8 => [31, 23, 15, 7]
     case 9 => [62, 54, 46, 38]
     case 10 => [30, 22, 14, 6]
     case 11 => [61, 53, 45, 37]
     case 12 => [29, 21, 13, 5]
     case _ => [28, 20, 12, 4]
    )[i % 4]
  }

  /** Permuted choice 2. */
  function Pc2Bit(i: nat): nat
    requires i < 48
  {
    (match i / 4
     case 0 => [14, 17, 11, 24]
     case 1 => [1, 5, 3, 28]
     case 2 => [15, 6, 21, 10]
     case 3 => [23, 19, 12, 4]
     case 4 => [26, 8, 16, 7]
     case 5 => [27, 20, 13, 2]
     case 6 => [41, 52, 31, 37]
     case 7 => [47, 55, 30, 40]
     case 8 => [51, 45, 33, 48]
     case 9 => [44, 49, 39, 56]
     case 10 => [34, 53, 46, 42]
     case _ => [50, 36, 29, 32]
    )[i % 4]
  }

  /** Permutation P. */
  function PBit(i: nat): nat
    requires i < 32
  {
    (match i / 4
     case 0 => [16, 7, 20, 21]
     case 1 => [29, 12, 28, 17]
     case 2 => [1, 15, 23, 26]
     case 3 => [5, 18, 31, 10]
     case 4 => [2, 8, 24, 14]
     case 5 => [32, 27, 3, 9]
     case 6 => [19, 13, 30, 6]
     case _ => [22, 11, 4, 25]
    )[i % 4]
  }

  type Nibble = n: nat | n < 16

  /** Selection function S1, one row of sixteen entries at a time. */
  function S1(row: nat): (r: seq<Nibble>)
    requires row < 4
    ensures |r| == 16
  {
    match row
    case 0 => [14, 4, 13, 1, 2, 15, 11, 8, 3, 10, 6, 12, 5, 9, 0, 7]
    case 1 => [0, 15, 7, 4, 14, 2, 13, 1, 10, 6, 12, 11, 9, 5, 3, 8]
    case 2 => [4, 1, 14, 8, 13, 6, 2, 11, 15, 12, 9, 7, 3, 10, 5, 0]
    case _ => [15, 12, 8, 2, 4, 9, 1, 7, 5, 11, 3, 14, 10, 0, 6, 13]
  }

  /** Selection function S2, one row of sixteen entries at a time. */
  function S2(row: nat): (r: seq<Nibble>)
    requires row < 4
    ensures |r| == 16
  {
    match row
    case 0 => [15, 1, 8, 14, 6, 11, 3, 4, 9, 7, 2, 13, 12, 0, 5, 10]
    case 1 => [3, 13, 4, 7, 15, 2, 8, 14, 12, 0, 1, 10, 6, 9, 11, 5]
    case 2 => [0, 14, 7, 11, 10, 4, 13, 1, 5, 8, 12, 6, 9, 3, 2, 15]
    case _ => [13, 8, 10, 1, 3, 15, 4, 2, 11, 6, 7, 12, 0, 5, 14, 9]
  }

  /** Selection function S3, one row of sixteen entries at a time. */
  function S3(row: nat): (r: seq<Nibble>)
    requires row < 4
    ensures |r| == 16
  {
    match row
    case 0 => [10, 0, 9, 14, 6, 3, 15, 5, 1, 13, 12, 7, 11, 4, 2, 8]
    case 1 => [13, 7, 0, 9, 3, 4, 6, 10, 2, 8, 5, 14, 12, 11, 15, 1]
    case 2 => [13, 6, 4, 9, 8, 15, 3, 0, 11, 1, 2, 12, 5, 10, 14, 7]
    case _ => [1, 10, 13, 0, 6, 9, 8, 7, 4, 15, 14, 3, 11, 5, 2, 12]
  }

  /** Selection function S4, one row of sixteen entries at a time. */
  function S4(row: nat): (r: seq<Nibble>)
    requires row < 4
    ensures |r| == 16
  {
    match row
    case 0 => [7, 13, 14, 3, 0, 6, 9, 10, 1, 2, 8, 5, 11, 12, 4, 15]
    case 1 => [13, 8, 11, 5, 6, 15, 0, 3, 4, 7, 2, 12, 1, 10, 14, 9]
    case 2 => [10, 6, 9, 0, 12, 11, 7, 13, 15, 1, 3, 14, 5, 2, 8, 4]
    case _ => [3, 15, 0, 6, 10, 1, 13, 8, 9, 4, 5, 11, 12, 7, 2, 14]
  }

  /** Selection function S5, one row of sixteen entries at a time. */
  function S5(row: nat): (r: seq<Nibble>)
    requires row < 4
    ensures |r| == 16
  {
    match row
    case 0 => [2, 12, 4, 1, 7, 10, 11, 6, 8, 5, 3, 15, 13, 0, 14, 9]
    case 1 => [14, 11, 2, 12, 4, 7, 13, 1, 5, 0, 15, 10, 3, 9, 8, 6]
    case 2 => [4, 2, 1, 11, 10, 13, 7, 8, 15, 9, 12, 5, 6, 3, 0, 14]
    case _ => [11, 8, 12, 7, 1, 14, 2, 13, 6, 15, 0, 9, 10, 4, 5, 3]
  }

  /** Selection function S6, one row of sixteen entries at a time. */
  function S6(row: nat): (r: seq<Nibble>)
    requires row < 4
    ensures |r| == 16
  {
    match row
    case 0 => [12, 1, 10, 15, 9, 2, 6, 8, 0, 13, 3, 4, 14, 7, 5, 11]
    case 1 => [10, 15, 4, 2, 7, 12, 9, 5, 6, 1, 13, 14, 0, 11, 3, 8]
    case 2 => [9, 14, 15, 5, 2, 8, 12, 3, 7, 0, 4, 10, 1, 13, 11, 6]
    case _ => [4, 3, 2, 12, 9, 5, 15, 10, 11, 14, 1, 7, 6, 0, 8, 13]
  }

  /** Selection function S7, one row of sixteen entries at a time. */
  function S7(row: nat): (r: seq<Nibble>)
    requires row < 4
    ensures |r| == 16
  {
    match row
    case 0 => [4, 11, 2, 14, 15, 0, 8, 13, 3, 12, 9, 7, 5, 10, 6, 1]
    case 1 => [13, 0, 11, 7, 4, 9, 1, 10, 14, 3, 5, 12, 2, 15, 8, 6]
    case 2 => [1, 4, 11, 13, 12, 3, 7, 14, 10, 15, 6, 8, 0, 5, 9, 2]
    case _ => [6, 11, 13, 8, 1, 4, 10, 7, 9, 5, 0, 15, 14, 2, 3, 12]
  }

  /** Selection function S8, one row of sixteen entries at a time. */
  function S8(row: nat): (r: seq<Nibble>)
    requires row < 4
    ensures |r| == 16
  {
    match row
    case 0 => [13, 2, 8, 4, 6, 15, 11, 1, 10, 9, 3, 14, 5, 0, 12, 7]
    case 1 => [1, 15, 13, 8, 10, 3, 7, 4, 12, 5, 6, 11, 0, 14, 9, 2]
    case 2 => [7, 11, 4, 1, 9, 12, 14, 2, 0, 6, 10, 13, 15, 3, 5, 8]
    case _ => [2, 1, 14, 7, 4, 10, 8, 13, 15, 12, 9, 0, 3, 5, 6, 11]
  }

  function Box(b: nat): (r: seq<Nibble>)
    requires b < 8
    ensures |r| == 64
  {
    match b
    case 0 => S1(0) + S1(1) + S1(2) + S1(3)
    case 1 => S2(0) + S2(1) + S2(2) + S2(3)
    case 2 => S3(0) + S3(1) + S3(2) + S3(3)
    case 3 => S4(0) + S4(1) + S4(2) + S4(3)
    case 4 => S5(0) + S5(1) + S5(2) + S5(3)
    case 5 => S6(0) + S6(1) + S6(2) + S6(3)
    case 6 => S7(0) + S7(1) + S7(2) + S7(3)
    case _ => S8(0) + S8(1) + S8(2) + S8(3)
  }

  const DES: Tables := Tables(
    seq(64, i requires 0 <= i < 64 => IpBit(i)),
    seq(64, i requires 0 <= i < 64 => FpBit(i)),
    seq(56, i requires 0 <= i < 56 => Pc1Bit(i)),
    seq(48, i requires 0 <= i < 48 => Pc2Bit(i)),
    seq(32, i requires 0 <= i < 32 => PBit(i)),
    seq(8, b requires 0 <= b < 8 => Box(b)))

  lemma IpInverse(i: nat)
    requires i < 64
    ensures 1 <= IpBit(i) <= 64 && FpBit(IpBit(i) - 1) == i + 1
  {
  }

  lemma FpInverse(i: nat)
    requires i < 64
    ensures 1 <= FpBit(i) <= 64 && IpBit(FpBit(i) - 1) == i + 1
  {
  }

  lemma Pc1Distinct(i: nat, j: nat)
    requires i < j < 56
    ensures Pc1Bit(i) != Pc1Bit(j)
  {
  }

  lemma Pc1Range(i: nat)
    requires i < 56
    ensures 1 <= Pc1Bit(i) <= 64 && Pc1Bit(i) % 8 != 0
  {
  }

  lemma Pc2Distinct(i: nat, j: nat)
    requires i < j < 48
    ensures Pc2Bit(i) != Pc2Bit(j)
  {
  }

  lemma Pc2Range(i: nat)
    requires i < 48
    ensures 1 <= Pc2Bit(i) <= 56
  {
  }

  lemma PDistinct(i: nat, j: nat)
    requires i < j < 32
    ensures PBit(i) != PBit(j)
  {
  }

  lemma PRange(i: nat)
    requires i < 32
    ensures 1 <= PBit(i) <= 32
  {
  }

  /** Position of each value 1..32 in P, witnessing that P leaves no bit out. */
  function PPosition(v: nat): nat
    requires 1 <= v <= 32
  {
    (match (v - 1) / 4
     case 0 => [8, 16, 22, 30]
     case 1 => [12, 27, 1, 17]
     case 2 => [23, 15, 29, 5]
     case 3 => [25, 19, 9, 0]
     case 4 => [7, 13, 24, 2]
     case 5 => [3, 28, 10, 18]
     case 6 => [31, 11, 21, 6]
     case _ => [4, 26, 14, 20]
    )[(v - 1) % 4]
  }

  lemma POnto(v: nat)
    requires 1 <= v <= 32
    ensures PPosition(v) < 32 && PBit(PPosition(v)) == v
  {
  }

  lemma DesInitialPermutation()
    ensures Inverts(DES.ip, DES.fp, 64) && Inverts(DES.fp, DES.ip, 64)
  {
    forall i | 0 <= i < 64
      ensures 1 <= DES.ip[i] <= 64 && UndoneAt(DES.ip, DES.fp, i)
    {
      IpInverse(i);
    }
    forall i | 0 <= i < 64
      ensures 1 <= DES.fp[i] <= 64 && UndoneAt(DES.fp, DES.ip, i)
    {
      FpInverse(i);
    }
  }

  lemma DesPermutedChoice1()
    ensures |DES.pc1| == 56 && Injective(DES.pc1)
    ensures forall i | 0 <= i < 56 :: 1 <= DES.pc1[i] <= 64 && DES.pc1[i] % 8 != 0
  {
    forall i, j | 0 <= i < j < 56
      ensures Differ(DES.pc1, i, j)
    {
      Pc1Distinct(i, j);
    }
    forall i | 0 <= i < 56
      ensures 1 <= DES.pc1[i] <= 64 && DES.pc1[i] % 8 != 0
    {
      Pc1Range(i);
    }
  }

  lemma DesPermutedChoice2()
    ensures |DES.pc2| == 48 && Injective(DES.pc2)
    ensures forall i | 0 <= i < 48 :: 1 <= DES.pc2[i] <= 56
  {
    forall i, j | 0 <= i < j < 48
      ensures Differ(DES.pc2, i, j)
    {
      Pc2Distinct(i, j);
    }
    forall i | 0 <= i < 48
      ensures 1 <= DES.pc2[i] <= 56
    {
      Pc2Range(i);
    }
  }

  lemma DesP()
    ensures |DES.p| == 32 && Injective(DES.p)
    ensures forall i | 0 <= i < 32 :: 1 <= DES.p[i] <= 32
    ensures forall v | 1 <= v <= 32 :: v in DES.p
  {
    forall i, j | 0 <= i < j < 32
      ensures Differ(DES.p, i, j)
    {
      PDistinct(i, j);
    }
    forall i | 0 <= i < 32
      ensures 1 <= DES.p[i] <= 32
    {
      PRange(i);
    }
    forall v | 1 <= v <= 32
      ensures v in DES.p
    {
      POnto(v);
      assert DES.p[PPosition(v)] == v;
    }
  }

  lemma DesBoxes()
    ensures BoxesOk(DES.s)
  {
    forall b, i | 0 <= b < 8 && 0 <= i < 64
      ensures DES.s[b][i] < 16
    {
      var row: seq<Nibble> := Box(b);
      assert row[i] < 16;
    }
  }

  /** The published tables fit together: IP and its printed inverse undo each other, PC-1
      avoids the eight parity bits, no table names a bit twice, and P is onto. */
  lemma DesWellFormed()
    ensures DES.WellFormed()
  {
    DesInitialPermutation();
    DesPermutedChoice1();
    DesPermutedChoice2();
    DesP();
    DesBoxes();
  }
}
