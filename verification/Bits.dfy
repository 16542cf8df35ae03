/** Machine words and table indices as bit sequences, most significant bit first.
    Position 0 of a 32-bit word is the bit 0x80000000, so position i is the bit that
    the bits32 table of telnetd/des.c calls bits32[i] and FIPS PUB 46-3 calls bit i + 1. */
module Bits {

  type Word = w: seq<bool> | |w| == 32 witness seq(32, i => false)

  function Zero(): Word {
    seq(32, i => false)
  }

  /** The word with the single bit o set: bits32[o]. */
  function One(o: nat): Word
    requires o < 32
  {
    seq(32, i => i == o)
  }

  function Or(a: Word, b: Word): Word {
    seq(32, i requires 0 <= i < 32 => a[i] || b[i])
  }

  function And(a: Word, b: Word): Word {
    seq(32, i requires 0 <= i < 32 => a[i] && b[i])
  }

  function Xor(a: Word, b: Word): Word {
    seq(32, i requires 0 <= i < 32 => a[i] != b[i])
  }

  function Complement(x: seq<bool>): (r: seq<bool>)
    ensures |r| == |x|
  {
    seq(|x|, i requires 0 <= i < |x| => !x[i])
  }

  function Shl(a: Word, n: nat): Word {
    seq(32, i requires 0 <= i < 32 => i + n < 32 && a[i + n])
  }

  function Shr(a: Word, n: nat): Word {
    seq(32, i requires 0 <= i < 32 => i >= n && a[i - n])
  }

  /** The constant whose bits lo..hi-1, counted from the most significant one, are set. */
  function Mask(lo: nat, hi: nat): Word
    requires lo <= hi <= 32
  {
    seq(32, i => lo <= i < hi)
  }

  /** The expression (w >> shift) & (2^n - 1), as the n bits it selects. */
  function Field(w: Word, shift: nat, n: nat): (r: seq<bool>)
    requires shift + n <= 32
    ensures |r| == n
  {
    w[32 - shift - n..32 - shift]
  }

  /** The unsigned value of a bit sequence. */
  function Value(b: seq<bool>): nat {
    if |b| == 0 then 0 else 2 * Value(b[..|b| - 1]) + (if b[|b| - 1] then 1 else 0)
  }

  /** The n low bits of v. */
  function BitsOf(n: nat, v: nat): (r: seq<bool>)
    ensures |r| == n
  {
    if n == 0 then [] else BitsOf(n - 1, v / 2) + [v % 2 == 1]
  }

  function Pow2(n: nat): (r: nat)
    ensures r >= 1
  {
    if n == 0 then 1 else 2 * Pow2(n - 1)
  }

  /** A bit sequence is recovered from its value, so indexing a table with the value loses nothing. */
  lemma {:induction false} ValueRoundTrip(b: seq<bool>)
    ensures BitsOf(|b|, Value(b)) == b
    ensures Value(b) < Pow2(|b|)
  {
    if |b| > 0 {
      ValueRoundTrip(b[..|b| - 1]);
      assert Value(b) / 2 == Value(b[..|b| - 1]);
      assert b == b[..|b| - 1] + [b[|b| - 1]];
    }
  }

  /** The value of a concatenation: the first part is shifted past the second. */
  lemma {:induction false} ValueConcat(a: seq<bool>, b: seq<bool>)
    ensures Value(a + b) == Value(a) * Pow2(|b|) + Value(b)
  {
    if |b| == 0 {
      assert a + b == a;
    } else {
      var b' := b[..|b| - 1];
      var bit := if b[|b| - 1] then 1 else 0;
      assert (a + b)[..|a + b| - 1] == a + b';
      calc {
        Value(a + b);
        2 * Value(a + b') + bit;
        { ValueConcat(a, b'); }
        2 * (Value(a) * Pow2(|b'|)) + 2 * Value(b') + bit;
        { Distribute(Value(a), Pow2(|b'|)); }
        Value(a) * Pow2(|b|) + Value(b);
      }
    }
  }

  lemma Distribute(x: nat, y: nat)
    ensures 2 * (x * y) == x * (2 * y)
  {
  }

  lemma {:induction false} LeadingZeros(z: seq<bool>, b: seq<bool>)
    requires forall i | 0 <= i < |z| :: !z[i]
    ensures Value(z + b) == Value(b)
  {
    AllZero(z);
    ValueConcat(z, b);
  }

  lemma {:induction false} AllZero(z: seq<bool>)
    requires forall i | 0 <= i < |z| :: !z[i]
    ensures Value(z) == 0
  {
    if |z| > 0 {
      AllZero(z[..|z| - 1]);
    }
  }

  /** Packing two fields into one number packs their bits. */
  lemma {:induction false} BitsConcat(n: nat, x: nat, m: nat, y: nat)
    requires y < Pow2(m)
    ensures BitsOf(n + m, x * Pow2(m) + y) == BitsOf(n, x) + BitsOf(m, y)
  {
    if m > 0 {
      var v := x * Pow2(m) + y;
      Distribute(x, Pow2(m - 1));
      assert v / 2 == x * Pow2(m - 1) + y / 2;
      assert v % 2 == y % 2;
      BitsConcat(n, x, m - 1, y / 2);
    } else {
      assert x * Pow2(0) == x;
      assert BitsOf(n, x) + [] == BitsOf(n, x);
    }
  }

  /** Bit i of a number, counted from the least significant one. */
  predicate BitAt(v: nat, i: nat) {
    if i == 0 then v % 2 == 1 else BitAt(v / 2, i - 1)
  }

  lemma {:induction false} BitsOfAt(n: nat, v: nat, i: nat)
    requires i < n
    ensures BitsOf(n, v)[n - 1 - i] == BitAt(v, i)
  {
    if i > 0 {
      BitsOfAt(n - 1, v / 2, i - 1);
    }
  }

  /** A number below 2^n has no bits from n on. */
  lemma {:induction false} NoBitBeyond(v: nat, n: nat, i: nat)
    requires v < Pow2(n) && n <= i
    ensures !BitAt(v, i)
  {
    if n > 0 {
      NoBitBeyond(v / 2, n - 1, i - 1);
    } else if i > 0 {
      NoBitBeyond(0, 0, i - 1);
    }
  }

  lemma HalfOfRemainder(v: nat, m: nat)
    requires m > 0
    ensures v % (2 * m) / 2 == v / 2 % m && v % (2 * m) % 2 == v % 2
  {
    var q, r := v / (2 * m), v % (2 * m);
    assert v == 2 * (m * q) + r;
    assert v / 2 == m * q + r / 2;
    assert r / 2 < m;
    Remainder(v / 2, m, q, r / 2);
  }

  lemma Remainder(x: nat, m: nat, q: nat, r: nat)
    requires x == m * q + r && r < m
    ensures x % m == r
  {
    var d := x / m - q;
    assert m * (x / m) == m * q + m * d;
    MultipleGrows(m, d);
  }

  lemma MultipleGrows(m: int, d: int)
    requires m > 0
    ensures (d > 0 ==> m * d >= m) && (d < 0 ==> m * d <= -m)
  {
  }

  /** The n low bits do not depend on the rest. */
  lemma {:induction false} BitsOfRemainder(n: nat, v: nat)
    ensures BitsOf(n, v % Pow2(n)) == BitsOf(n, v)
  {
    if n > 0 {
      HalfOfRemainder(v, Pow2(n - 1));
      BitsOfRemainder(n - 1, v / 2);
    }
  }
}
