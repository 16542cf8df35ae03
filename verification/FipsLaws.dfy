/** Laws of the cipher of FIPS PUB 46-3, for any round function where that is enough, any
    salt and any number of iterations: skipping the inner permutations, deciphering with the
    reversed key schedule, and the complementation property. */
module FipsLaws {
  import opened Bits
  import opened Fips46

  function Reverse<T>(ks: seq<T>): (r: seq<T>)
    ensures |r| == |ks|
  {
    seq(|ks|, i requires 0 <= i < |ks| => ks[|ks| - 1 - i])
  }

  // IP and its inverse.

  lemma SelectInverse(a: seq<nat>, b: seq<nat>, n: nat, x: seq<bool>)
    requires Inverts(a, b, n) && Inverts(b, a, n) && |x| == n
    ensures Select(Select(x, a), b) == x
  {
    var y := Select(x, a);
    forall i | 0 <= i < n
      ensures Select(y, b)[i] == x[i]
    {
      assert UndoneAt(b, a, i);
    }
  }

  // Iterating without the inner permutations.

  function Passes(c: Network, x: seq<bool>, ks: seq<seq<bool>>, n: nat): (y: seq<bool>)
    requires |x| == 64 && Schedule(ks)
    ensures |y| == 64
  {
    if n == 0 then x else Pass(c, Passes(c, x, ks, n - 1), ks)
  }

  /** Between two passes FP and IP cancel, so one IP before and one FP after n passes
      encipher n times. */
  lemma {:induction false} InnerPermutationsCancel(c: Network, block: seq<bool>, ks: seq<seq<bool>>, n: nat)
    requires c.WellFormed() && |block| == 64 && Schedule(ks)
    ensures EncipherTimes(c, block, ks, n) == Select(Passes(c, Select(block, c.ip), ks, n), c.fp)
  {
    if n == 0 {
      SelectInverse(c.ip, c.fp, 64, block);
    } else {
      InnerPermutationsCancel(c, block, ks, n - 1);
      SelectInverse(c.fp, c.ip, 64, Passes(c, Select(block, c.ip), ks, n - 1));
    }
  }

  /** m + n iterations are m iterations followed by n. */
  lemma {:induction false} EncipherSplit(c: Network, block: seq<bool>, ks: seq<seq<bool>>, m: nat, n: nat)
    requires c.WellFormed() && |block| == 64 && Schedule(ks)
    ensures EncipherTimes(c, EncipherTimes(c, block, ks, m), ks, n) == EncipherTimes(c, block, ks, m + n)
  {
    if n > 0 {
      EncipherSplit(c, block, ks, m, n - 1);
    }
  }

  // Deciphering.

  lemma XorBack(a: Word, b: Word)
    ensures Xor(Xor(a, b), b) == a
  {
    var c := Xor(Xor(a, b), b);
    forall i | 0 <= i < 32
      ensures c[i] == a[i]
    {
    }
  }

  /** Running the reversed keys from (R16, L16) retraces the rounds, whatever the round
      function is. */
  lemma {:induction false} RoundsRetrace(c: Network, l: Word, r: Word, ks: seq<seq<bool>>, j: nat)
    requires Schedule(ks) && j <= 16
    ensures
      var end := Rounds(c, l, r, ks, 16);
      var back := Rounds(c, end.1, end.0, Reverse(ks), j);
      var before := Rounds(c, l, r, ks, 16 - j);
      back == (before.1, before.0)
  {
    if j > 0 {
      RoundsRetrace(c, l, r, ks, j - 1);
      var m := 16 - (j - 1);
      var (lp, rp) := Rounds(c, l, r, ks, m - 1);
      assert Reverse(ks)[j - 1] == ks[m - 1];
      XorBack(lp, c.f(rp, ks[m - 1]));
    }
  }

  lemma PassUndone(c: Network, x: seq<bool>, ks: seq<seq<bool>>)
    requires |x| == 64 && Schedule(ks)
    ensures Pass(c, Pass(c, x, ks), Reverse(ks)) == x
  {
    var l, r := x[..32], x[32..];
    RoundsRetrace(c, l, r, ks, 16);
    var (l16, r16) := Rounds(c, l, r, ks, 16);
    assert (r16 + l16)[..32] == r16 && (r16 + l16)[32..] == l16;
    assert l + r == x;
  }

  lemma EncipherUndone(c: Network, block: seq<bool>, ks: seq<seq<bool>>)
    requires c.WellFormed() && |block| == 64 && Schedule(ks)
    ensures Encipher(c, Encipher(c, block, ks), Reverse(ks)) == block
  {
    var x := Select(block, c.ip);
    SelectInverse(c.fp, c.ip, 64, Pass(c, x, ks));
    PassUndone(c, x, ks);
    SelectInverse(c.ip, c.fp, 64, block);
  }

  /** The reversed key schedule undoes any number of iterations. */
  lemma {:induction false} DecipherTimes(c: Network, block: seq<bool>, ks: seq<seq<bool>>, n: nat)
    requires c.WellFormed() && |block| == 64 && Schedule(ks)
    ensures EncipherTimes(c, EncipherTimes(c, block, ks, n), Reverse(ks), n) == block
  {
    if n > 0 {
      var y := EncipherTimes(c, block, ks, n - 1);
      var z := Encipher(c, y, ks);
      EncipherSplit(c, z, Reverse(ks), 1, n - 1);
      assert EncipherTimes(c, z, Reverse(ks), 1) == Encipher(c, z, Reverse(ks));
      EncipherUndone(c, y, ks);
      DecipherTimes(c, block, ks, n - 1);
    }
  }

  // Complementation.

  function ComplementAll(ks: seq<seq<bool>>): (r: seq<seq<bool>>)
    ensures |r| == |ks|
  {
    seq(|ks|, i requires 0 <= i < |ks| => Complement(ks[i]))
  }

  lemma SelectComplement(x: seq<bool>, table: seq<nat>)
    requires forall i | 0 <= i < |table| :: 1 <= table[i] <= |x|
    ensures Select(Complement(x), table) == Complement(Select(x, table))
  {
  }

  lemma KeySumComplement(e: seq<bool>, salt: seq<bool>, k: seq<bool>)
    requires |e| == 48 && |salt| == 24 && |k| == 48
    ensures XorBits(Salted(Complement(e), salt), Complement(k)) == XorBits(Salted(e, salt), k)
  {
    var s, s' := Salted(e, salt), Salted(Complement(e), salt);
    forall i | 0 <= i < 48
      ensures s'[i] == !s[i]
    {
    }
  }

  /** Complementing R and K leaves f alone: the key sum does not change. */
  lemma CipherComplement(t: Tables, r: Word, salt: seq<bool>, k: seq<bool>)
    requires t.WellFormed() && |salt| == 24 && |k| == 48
    ensures Cipher(t, Complement(r), salt, Complement(k)) == Cipher(t, r, salt, k)
  {
    var e, e' := Expand(r), Expand(Complement(r));
    assert e' == Complement(e) by {
      forall i | 0 <= i < 48
        ensures e'[i] == !e[i]
      {
        ERange(i);
      }
    }
    KeySumComplement(e, salt, k);
  }

  /** A round function that does not see the complement of both its arguments. */
  ghost predicate Blind(c: Network) {
    forall r: Word, k: seq<bool> | |k| == 48 :: c.f(Complement(r), Complement(k)) == c.f(r, k)
  }

  lemma DesIsBlind(t: Tables, salt: seq<bool>)
    requires t.WellFormed() && |salt| == 24
    ensures Blind(Des(t, salt))
  {
    forall r: Word, k: seq<bool> | |k| == 48
      ensures Des(t, salt).f(Complement(r), Complement(k)) == Des(t, salt).f(r, k)
    {
      CipherComplement(t, r, salt, k);
    }
  }

  lemma XorComplement(a: Word, b: Word)
    ensures Xor(Complement(a), b) == Complement(Xor(a, b))
  {
  }

  lemma {:induction false} RoundsComplement(c: Network, l: Word, r: Word, ks: seq<seq<bool>>, n: nat)
    requires Blind(c) && Schedule(ks) && n <= 16
    ensures
      var (l', r') := Rounds(c, l, r, ks, n);
      Rounds(c, Complement(l), Complement(r), ComplementAll(ks), n) == (Complement(l'), Complement(r'))
  {
    if n > 0 {
      RoundsComplement(c, l, r, ks, n - 1);
      var (l', r') := Rounds(c, l, r, ks, n - 1);
      assert c.f(Complement(r'), Complement(ks[n - 1])) == c.f(r', ks[n - 1]);
      XorComplement(l', c.f(r', ks[n - 1]));
    }
  }

  lemma EncipherComplement(c: Network, block: seq<bool>, ks: seq<seq<bool>>)
    requires c.WellFormed() && Blind(c) && |block| == 64 && Schedule(ks)
    ensures Encipher(c, Complement(block), ComplementAll(ks)) == Complement(Encipher(c, block, ks))
  {
    SelectComplement(block, c.ip);
    var x := Select(block, c.ip);
    var l, r := x[..32], x[32..];
    assert Complement(x)[..32] == Complement(l) && Complement(x)[32..] == Complement(r);
    RoundsComplement(c, l, r, ks, 16);
    var (l16, r16) := Rounds(c, l, r, ks, 16);
    assert Complement(r16) + Complement(l16) == Complement(r16 + l16);
    SelectComplement(r16 + l16, c.fp);
  }

  lemma {:induction false} EncipherTimesComplement(c: Network, block: seq<bool>, ks: seq<seq<bool>>, n: nat)
    requires c.WellFormed() && Blind(c) && |block| == 64 && Schedule(ks)
    ensures EncipherTimes(c, Complement(block), ComplementAll(ks), n) == Complement(EncipherTimes(c, block, ks, n))
  {
    if n > 0 {
      EncipherTimesComplement(c, block, ks, n - 1);
      EncipherComplement(c, EncipherTimes(c, block, ks, n - 1), ks);
    }
  }

  lemma {:induction false} ShiftedComplement(c: seq<bool>, round: nat)
    requires |c| == 28 && round < 16
    ensures Shifted(Complement(c), round) == Complement(Shifted(c, round))
  {
    if round > 0 {
      ShiftedComplement(c, round - 1);
    }
  }

  lemma SubkeyComplement(t: Tables, key: seq<bool>, round: nat)
    requires t.WellFormed() && |key| == 64 && round < 16
    ensures Subkey(t, Complement(key), round) == Complement(Subkey(t, key, round))
  {
    SelectComplement(key, t.pc1);
    var cd := Select(key, t.pc1);
    assert Complement(cd)[..28] == Complement(cd[..28]) && Complement(cd)[28..] == Complement(cd[28..]);
    ShiftedComplement(cd[..28], round);
    ShiftedComplement(cd[28..], round);
    var c, d := Shifted(cd[..28], round), Shifted(cd[28..], round);
    assert Complement(c) + Complement(d) == Complement(c + d);
    SelectComplement(c + d, t.pc2);
  }

  lemma ScheduleComplement(t: Tables, key: seq<bool>)
    requires t.WellFormed() && |key| == 64
    ensures KeySchedule(t, Complement(key)) == ComplementAll(KeySchedule(t, key))
    ensures Reverse(KeySchedule(t, Complement(key))) == ComplementAll(Reverse(KeySchedule(t, key)))
  {
    var ks, ks' := KeySchedule(t, key), KeySchedule(t, Complement(key));
    forall i | 0 <= i < 16
      ensures ks'[i] == Complement(ks[i])
    {
      SubkeyComplement(t, key, i);
    }
    assert ks' == ComplementAll(ks);
    assert Reverse(ks') == ComplementAll(Reverse(ks));
  }
}
